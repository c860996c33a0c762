/** The active ESPHome climate component (`SamsungAcIrClimate`): its
    capability descriptor, the merge of a sparse request into the current
    state, and the translation of that state onto the Samsung codec with a
    capability-gated swing and a redundant transmission.

    Whether the linked codec has `setSwingH` is decided at compile time in the
    firmware; here it is the parameter `codecHasSwingH`. */
module SamsungAcIr {
  import opened Common
  import opened Climate
  import opened SamsungCodec
  import opened Translate

  /** The deployment-time swing capability flags. */
  datatype Config = Config(supportsSwingVertical: bool, supportsSwingHorizontal: bool)

  /** The flags' initial values in the component class. */
  const ClassDefaults := Config(true, true)

  /** The flags' defaults in the configuration schema; generated code always
      calls both setters, so these are what an unconfigured build runs with. */
  const SchemaDefaults := Config(false, false)

  /** The thermostat state ESPHome's `Climate` base class holds. */
  datatype State = State(
    mode: ClimateMode,
    targetTemperature: real,
    fanMode: Option<FanMode>,
    swingMode: SwingMode)

  /** The component: configuration, thermostat state, the last power flag
      derived, and the codec's command state. */
  datatype Component = Component(config: Config, state: State, powerOn: bool, ac: SamsungAc)

  type Trace = seq<Event<State>>

  /** The state `setup()` starts from. */
  const InitialState := State(ModeOff, 24.0, Some(FanHigh), SwingBoth)

  /** `setup()`: a freshly initialised codec `initialAc`, the default state, power
      off, and one publication of that state. Nothing is transmitted. */
  function Setup(config: Config, initialAc: SamsungAc): (r: (Component, Trace))
    ensures r.0.config == config && r.0.ac == initialAc && !r.0.powerOn
    ensures r.0.state.mode == ModeOff && r.0.state.swingMode == SwingBoth
    ensures r.0.state.targetTemperature == 24.0 && SentTemperature(r.0.state.targetTemperature) == 24
    ensures r.0.state.fanMode == Some(FanHigh)
    ensures r.1 == [Published(r.0.state)] && Frames(r.1) == []
  {
    var c := Component(config, InitialState, false, initialAc);
    (c, [Published(c.state)])
  }

  /** `traits()`: the temperature range 16..30 in steps of 1, six modes, four
      fan modes, and the swing modes the flags allow. */
  function Traits(config: Config): (t: ClimateTraits)
    ensures !t.supportsCurrentTemperature && !t.supportsTwoPointTargetTemperature
    ensures t.visualMinTemperature == MinTemperature as real
    ensures t.visualMaxTemperature == MaxTemperature as real
    ensures t.visualTemperatureStep == 1.0
    ensures t.supportedModes == SupportedModes
    ensures t.supportedFanModes == SupportedFanModes
    ensures SwingOff in t.supportedSwingModes
    ensures SwingVertical in t.supportedSwingModes <==> config.supportsSwingVertical
    ensures SwingHorizontal in t.supportedSwingModes <==> config.supportsSwingHorizontal
    ensures SwingBoth in t.supportedSwingModes <==>
      config.supportsSwingVertical && config.supportsSwingHorizontal
  {
    var swings := {SwingOff}
      + (if config.supportsSwingVertical then {SwingVertical} else {})
      + (if config.supportsSwingHorizontal then {SwingHorizontal} else {})
      + (if config.supportsSwingVertical && config.supportsSwingHorizontal then {SwingBoth} else {});
    ClimateTraits(false, false, 16.0, 30.0, 1.0, SupportedModes, SupportedFanModes, swings)
  }

  /** A swing mode is advertised exactly when every axis it asks for is
      supported by the configuration: traits and actuation use one policy. */
  lemma AdvertisedSwingIffAxesSupported(config: Config, sw: SwingMode)
    ensures sw in Traits(config).supportedSwingModes <==>
      (WantsVertical(sw) ==> config.supportsSwingVertical)
      && (WantsHorizontal(sw) ==> config.supportsSwingHorizontal)
  {
  }

  /** `apply_swing_()`: the codec's vertical swing follows the request only
      when vertical swing is supported, its horizontal swing only when
      horizontal swing is supported and the codec can actuate it; the second
      component says whether the missing-`setSwingH` warning is raised. */
  function ApplySwing(ac: SamsungAc, sw: SwingMode, config: Config, codecHasSwingH: bool)
    : (r: (SamsungAc, bool))
    ensures r.0.power == ac.power && r.0.mode == ac.mode
    ensures r.0.temp == ac.temp && r.0.fan == ac.fan
    ensures config.supportsSwingVertical ==> r.0.swingV == WantsVertical(sw)
    ensures !config.supportsSwingVertical ==> r.0.swingV == ac.swingV
    ensures config.supportsSwingHorizontal && codecHasSwingH ==> r.0.swingH == WantsHorizontal(sw)
    ensures !(config.supportsSwingHorizontal && codecHasSwingH) ==> r.0.swingH == ac.swingH
    ensures r.1 <==> config.supportsSwingHorizontal && !codecHasSwingH && WantsHorizontal(sw)
  {
    var v := sw == SwingVertical || sw == SwingBoth;
    var h := sw == SwingHorizontal || sw == SwingBoth;
    var ac1 := if config.supportsSwingVertical then ac.(swingV := v) else ac;
    if config.supportsSwingHorizontal then
      if codecHasSwingH then (ac1.(swingH := h), false) else (ac1, h)
    else (ac1, false)
  }

  /** `send_ir_()`: power from the mode, the mode only while on, the clamped
      temperature, the fan speed, the gated swing; then the log record and the
      same frame sent twice with the settle delay between. */
  function SendIr(c: Component, codecHasSwingH: bool): (r: (Component, Trace))
    ensures r.0.config == c.config && r.0.state == c.state
    ensures r.0.powerOn == (c.state.mode != ModeOff) && r.0.ac.power == r.0.powerOn
    ensures c.state.mode == ModeOff ==> r.0.ac.mode == c.ac.mode
    ensures c.state.mode in OnModes ==> ClimateModeOf(r.0.ac.mode) == c.state.mode
    ensures c.state.mode == ModeHeatCool ==> r.0.ac.mode == AcCool
    ensures MinTemperature <= r.0.ac.temp <= MaxTemperature
    ensures r.0.ac.temp == SentTemperature(c.state.targetTemperature)
    ensures r.0.ac.fan == SamsungFanOf(c.state.fanMode)
    ensures r.0.ac.swingV == (if c.config.supportsSwingVertical
                             then WantsVertical(c.state.swingMode) else c.ac.swingV)
    ensures r.0.ac.swingH == (if c.config.supportsSwingHorizontal && codecHasSwingH
                             then WantsHorizontal(c.state.swingMode) else c.ac.swingH)
    ensures var warned := c.config.supportsSwingHorizontal && !codecHasSwingH
                          && WantsHorizontal(c.state.swingMode);
            r.1 == (if warned then [SwingHorizontalUnavailable] else [])
                   + [Logged(SendLog(r.0.powerOn, c.state.mode, r.0.ac.temp,
                                     c.state.fanMode.GetOr(FanAuto), c.state.swingMode))]
                   + AsEvents(SendTwice(r.0.ac))
    ensures Frames(r.1) == [r.0.ac, r.0.ac]
  {
    var s := c.state;
    var powerOn := s.mode != ModeOff;
    var ac1 := c.ac.(power := powerOn);
    var ac2 := if powerOn then ac1.(mode := SamsungModeOf(s.mode)) else ac1;
    var t := SentTemperature(s.targetTemperature);
    var ac3 := ac2.(temp := t);
    var fan := s.fanMode.GetOr(FanAuto);
    var ac4 := ac3.(fan := SamsungFanOf(s.fanMode));
    var (ac5, warned) := ApplySwing(ac4, s.swingMode, c.config, codecHasSwingH);
    var log := SendLog(powerOn, s.mode, t, fan, s.swingMode);
    var trace: Trace := (if warned then [SwingHorizontalUnavailable] else [])
      + [Logged(log)] + AsEvents(SendTwice(ac5));
    FramesAppend<State>((if warned then [SwingHorizontalUnavailable] else []) + [Logged(log)],
                        AsEvents(SendTwice(ac5)));
    SendTwiceFrames<State>(ac5);
    (Component(c.config, s, powerOn, ac5), trace)
  }

  /** Merges the present fields of a request into the state. */
  function Merge(s: State, call: ClimateCall): (s': State)
    ensures s'.mode == call.mode.GetOr(s.mode)
    ensures s'.targetTemperature == call.targetTemperature.GetOr(s.targetTemperature)
    ensures s'.fanMode == (if call.fanMode.Some? then call.fanMode else s.fanMode)
    ensures s'.swingMode == call.swingMode.GetOr(s.swingMode)
    ensures !call.HasAnyField() ==> s' == s
  {
    var s1 := if call.mode.Some? then s.(mode := call.mode.value) else s;
    var s2 := if call.targetTemperature.Some? then s1.(targetTemperature := call.targetTemperature.value) else s1;
    var s3 := if call.fanMode.Some? then s2.(fanMode := call.fanMode) else s2;
    if call.swingMode.Some? then s3.(swingMode := call.swingMode.value) else s3
  }

  /** `control()`: an empty request does nothing at all; a request with any
      field present (even one equal to the current value) updates the state,
      runs the whole send of it (log record, frame, settle delay, frame) and
      then publishes it once. */
  function Control(c: Component, call: ClimateCall, codecHasSwingH: bool): (r: (Component, Trace))
    ensures !call.HasAnyField() ==> r == (c, [])
    ensures call.HasAnyField() ==>
      && r.0.state == Merge(c.state, call)
      && r.0 == SendIr(c.(state := r.0.state), codecHasSwingH).0
      && |r.1| > 0 && r.1[|r.1| - 1] == Published(r.0.state)
      && Frames(r.1) == [r.0.ac, r.0.ac]
    ensures call.HasAnyField() ==>
      r.1 == SendIr(c.(state := r.0.state), codecHasSwingH).1 + [Published(r.0.state)]
    ensures r.0.config == c.config
  {
    if !call.HasAnyField() then (c, [])
    else
      var (c1, trace) := SendIr(c.(state := Merge(c.state, call)), codecHasSwingH);
      FramesAppend(trace, [Published(c1.state)]);
      (c1, trace + [Published(c1.state)])
  }

  /** A request only ever writes the fields it carries. */
  lemma AbsentFieldsUnchanged(c: Component, call: ClimateCall, codecHasSwingH: bool)
    ensures var s' := Control(c, call, codecHasSwingH).0.state;
      && (call.mode.None? ==> s'.mode == c.state.mode)
      && (call.targetTemperature.None? ==> s'.targetTemperature == c.state.targetTemperature)
      && (call.fanMode.None? ==> s'.fanMode == c.state.fanMode)
      && (call.swingMode.None? ==> s'.swingMode == c.state.swingMode)
  {
  }

  /** Change detection is by presence, not by value: repeating a non-empty
      request leaves the state where the first call put it, and transmits again. */
  lemma RepeatedRequestTransmitsAgain(c: Component, call: ClimateCall, codecHasSwingH: bool)
    requires call.HasAnyField()
    ensures var r1 := Control(c, call, codecHasSwingH);
            var r2 := Control(r1.0, call, codecHasSwingH);
            r2.0 == r1.0 && Frames(r2.1) == [r1.0.ac, r1.0.ac]
  {
    var r1 := Control(c, call, codecHasSwingH);
    var s := r1.0.state;
    assert Merge(s, call) == s;
    SendIrIdempotent(c.(state := s), codecHasSwingH);
  }

  /** Sending a state a second time leaves the codec as the first send left it. */
  lemma SendIrIdempotent(c: Component, codecHasSwingH: bool)
    ensures var c1 := SendIr(c, codecHasSwingH).0;
            SendIr(c1, codecHasSwingH).0 == c1
  {
  }

  /** With every capability present, the codec's two swing flags encode the
      requested swing mode exactly. */
  lemma FullCapabilitySwingRoundTrip(c: Component)
    requires c.config == ClassDefaults
    ensures var ac := SendIr(c, true).0.ac;
            SwingOfAxes(ac.swingV, ac.swingH) == c.state.swingMode
  {
  }

  /** With horizontal swing switched off, BOTH moves the vertical louvers only,
      and no warning is raised. */
  lemma HorizontalDisabledActuatesVerticalOnly(c: Component, codecHasSwingH: bool)
    requires c.config == Config(true, false) && c.state.swingMode == SwingBoth
    ensures var r := SendIr(c, codecHasSwingH);
            r.0.ac.swingV && r.0.ac.swingH == c.ac.swingH
            && SwingHorizontalUnavailable !in r.1
  {
  }

  /** A configuration that allows horizontal swing on a codec without
      `setSwingH` warns, leaves the horizontal flag alone and still sends. */
  lemma MissingSwingHWarns(c: Component)
    requires c.config.supportsSwingHorizontal && WantsHorizontal(c.state.swingMode)
    ensures var r := SendIr(c, false);
            r.1[0] == SwingHorizontalUnavailable
            && r.0.ac.swingH == c.ac.swingH
            && Frames(r.1) == [r.0.ac, r.0.ac]
  {
  }

  /** The schema defaults offer no swing at all and never touch either flag. */
  lemma SchemaDefaultsDisableSwing(c: Component, codecHasSwingH: bool)
    requires c.config == SchemaDefaults
    ensures Traits(c.config).supportedSwingModes == {SwingOff}
    ensures var ac := SendIr(c, codecHasSwingH).0.ac;
            ac.swingV == c.ac.swingV && ac.swingH == c.ac.swingH
  {
    var t := Traits(c.config);
    assert forall sw :: sw in t.supportedSwingModes <==> sw == SwingOff by {
      forall sw ensures sw in t.supportedSwingModes <==> sw == SwingOff {
        match sw
        case SwingOff =>
        case SwingBoth =>
        case SwingVertical =>
        case SwingHorizontal =>
      }
    }
  }

  /** Right after `setup()`, turning the unit to Cool sends the default 24
      degrees, high fan and, where allowed, both swing axes. */
  lemma FirstCoolAfterSetup(config: Config, initialAc: SamsungAc)
    ensures var c := Setup(config, initialAc).0;
            var call := EmptyCall.(mode := Some(ModeCool));
            var ac := Control(c, call, true).0.ac;
            ac.power && ac.mode == AcCool && ac.temp == 24 && ac.fan == AcFanHigh
            && (config.supportsSwingVertical ==> ac.swingV)
            && (config.supportsSwingHorizontal ==> ac.swingH)
  {
  }
}
