/** The translation both climate components share: ESPHome's climate
    vocabulary onto the Samsung codec's, the rounding and clamping of the
    target temperature, and the events a command produces. */
module Translate {
  import opened Common
  import opened Climate
  import opened SamsungCodec

  // ---------------------------------------------------------------------------
  // Temperature

  const MinTemperature: int := 16
  const MaxTemperature: int := 30

  /** C's `lroundf`: the nearest integer, halfway cases rounded away from
      zero (section 7.12.9.7 of ISO C99). */
  function LRound(x: real): (r: int)
    ensures x >= 0.0 ==> r as real - 0.5 <= x < r as real + 0.5
    ensures x < 0.0 ==> r as real - 0.5 < x <= r as real + 0.5
  {
    if x >= 0.0 then (x + 0.5).Floor else -((0.5 - x).Floor)
  }

  function AbsReal(x: real): real {
    if x < 0.0 then -x else x
  }

  /** No integer lies closer to `x` than `LRound(x)` does. */
  lemma LRoundIsNearest(x: real, k: int)
    ensures AbsReal(LRound(x) as real - x) <= AbsReal(k as real - x)
  {
    var r := LRound(x);
    assert AbsReal(r as real - x) <= 0.5;
    if k > r {
      assert k as real >= r as real + 1.0;
    } else if k < r {
      assert k as real <= r as real - 1.0;
    }
  }

  /** Rounding never reverses the order of two temperatures. */
  lemma LRoundMonotone(a: real, b: real)
    requires a <= b
    ensures LRound(a) <= LRound(b)
  {
    if a >= 0.0 || b < 0.0 {
      assert a + 0.5 <= b + 0.5 && 0.5 - b <= 0.5 - a;
    } else {
      assert LRound(a) <= 0 <= LRound(b);
    }
  }

  function Distance(a: int, b: int): nat {
    if a < b then b - a else a - b
  }

  /** The integer in [MinTemperature, MaxTemperature] nearest to `t`. */
  function ClampTemperature(t: int): (r: int)
    ensures MinTemperature <= r <= MaxTemperature
    ensures forall u :: MinTemperature <= u <= MaxTemperature ==> Distance(r, t) <= Distance(u, t)
  {
    if t < MinTemperature then MinTemperature
    else if t > MaxTemperature then MaxTemperature
    else t
  }

  /** The temperature handed to the codec for a requested target. */
  function SentTemperature(target: real): (t: int)
    ensures MinTemperature <= t <= MaxTemperature
    ensures MinTemperature <= LRound(target) <= MaxTemperature ==> t == LRound(target)
  {
    ClampTemperature(LRound(target))
  }

  /** A whole-degree target already inside the range is sent as it is. */
  lemma SentTemperatureKeepsValidTargets(k: int)
    requires MinTemperature <= k <= MaxTemperature
    ensures SentTemperature(k as real) == k
  {
  }

  /** A warmer request is never sent as a colder temperature. */
  lemma SentTemperatureMonotone(a: real, b: real)
    requires a <= b
    ensures SentTemperature(a) <= SentTemperature(b)
  {
    LRoundMonotone(a, b);
  }

  /** Worked values: 35 is sent as 30, 10.4 as 16, 21.5 as 22, 23.49 as 23. */
  lemma SentTemperatureExamples()
    ensures SentTemperature(35.0) == 30
    ensures SentTemperature(10.4) == 16
    ensures SentTemperature(21.5) == 22
    ensures SentTemperature(23.49) == 23
    ensures SentTemperature(-0.5) == 16
  {
  }

  // ---------------------------------------------------------------------------
  // Mode and fan vocabularies

  /** The climate modes that turn the unit on and have a Samsung mode of their own. */
  const OnModes: set<ClimateMode> := {ModeCool, ModeHeat, ModeDry, ModeFanOnly, ModeAuto}

  /** Reading a Samsung mode back as the climate mode it stands for. */
  function ClimateModeOf(sm: SamsungMode): ClimateMode {
    match sm
    case AcCool => ModeCool
    case AcHeat => ModeHeat
    case AcDry => ModeDry
    case AcFan => ModeFanOnly
    case AcAuto => ModeAuto
  }

  /** The Samsung mode a climate mode is sent as: the five on-modes map one to
      one, anything else falls back to Cool. */
  function SamsungModeOf(m: ClimateMode): (sm: SamsungMode)
    ensures m in OnModes ==> ClimateModeOf(sm) == m
    ensures m !in OnModes ==> sm == AcCool
  {
    match m
    case ModeCool => AcCool
    case ModeHeat => AcHeat
    case ModeDry => AcDry
    case ModeFanOnly => AcFan
    case ModeAuto => AcAuto
    case _ => AcCool
  }

  /** Every Samsung mode is reached by exactly one on-mode. */
  lemma SamsungModeOfIsOnto(sm: SamsungMode)
    ensures ClimateModeOf(sm) in OnModes
    ensures SamsungModeOf(ClimateModeOf(sm)) == sm
  {
  }

  /** The fan modes with a Samsung fan speed of their own. */
  const MappedFanModes: set<FanMode> := {FanLow, FanMedium, FanHigh}

  /** Reading a Samsung fan speed back as the fan mode it stands for. */
  function FanModeOf(sf: SamsungFan): FanMode {
    match sf
    case AcFanLow => FanLow
    case AcFanMed => FanMedium
    case AcFanHigh => FanHigh
    case AcFanAuto => FanAuto
  }

  /** The Samsung fan speed for an optional fan mode: unset means Auto;
      Low, Medium and High map one to one; anything else is Auto. */
  function SamsungFanOf(f: Option<FanMode>): (sf: SamsungFan)
    ensures f.GetOr(FanAuto) in MappedFanModes ==> FanModeOf(sf) == f.GetOr(FanAuto)
    ensures f.GetOr(FanAuto) !in MappedFanModes ==> sf == AcFanAuto
  {
    match f.GetOr(FanAuto)
    case FanLow => AcFanLow
    case FanMedium => AcFanMed
    case FanHigh => AcFanHigh
    case _ => AcFanAuto
  }

  // ---------------------------------------------------------------------------
  // Events

  /** The diagnostic record of what a command carried: the power flag, the
      climate mode, the clamped temperature, the fan mode after defaulting and
      the swing mode. */
  datatype SendLog = SendLog(power: bool, mode: ClimateMode, temp: int, fan: FanMode, swing: SwingMode)

  /** What a climate component does that the outside world can see: the
      horizontal-swing warning, the "Send IR" log record, what the transmitter
      emits, and the publication of a new state of type `S`. */
  datatype Event<S> =
    | SwingHorizontalUnavailable
    | Logged(log: SendLog)
    | Emitted(tx: TxEvent)
    | Published(state: S)

  /** The frames transmitted in a trace, in order. */
  function Frames<S>(trace: seq<Event<S>>): seq<SamsungAc>
  {
    if |trace| == 0 then []
    else
      var head := if trace[0].Emitted? && trace[0].tx.Transmit? then [trace[0].tx.frame] else [];
      head + Frames(trace[1..])
  }

  /** The frames of a concatenation are the frames of its parts. */
  lemma {:induction false} FramesAppend<S>(a: seq<Event<S>>, b: seq<Event<S>>)
    ensures Frames(a + b) == Frames(a) + Frames(b)
    decreases |a|
  {
    if |a| == 0 {
      assert a + b == b;
    } else {
      assert (a + b)[1..] == a[1..] + b;
      FramesAppend(a[1..], b);
    }
  }

  /** The transmitter events as a component trace. */
  function AsEvents<S>(tx: seq<TxEvent>): (trace: seq<Event<S>>)
    ensures |trace| == |tx|
    ensures forall i :: 0 <= i < |tx| ==> trace[i] == Emitted(tx[i])
  {
    if |tx| == 0 then [] else [Emitted(tx[0])] + AsEvents(tx[1..])
  }

  /** Sending a frame twice transmits that frame, and nothing else, twice. */
  lemma SendTwiceFrames<S>(frame: SamsungAc)
    ensures Frames<S>(AsEvents(SendTwice(frame))) == [frame, frame]
  {
    var t := AsEvents<S>(SendTwice(frame));
    assert t[1..][1..][1..] == [];
    assert Frames(t[1..][1..]) == [frame];
    assert Frames(t[1..]) == [frame];
  }
}
