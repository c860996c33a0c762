/** The earlier single-header climate component (`SamsungAcClimate`). It
    translates state the same way as the active component, except that it
    always advertises all four swing modes, treats an unset swing as OFF, and
    only ever drives the vertical louvers. */
module LegacyClimate {
  import opened Common
  import opened Climate
  import opened SamsungCodec
  import opened Translate
  import SamsungAcIr

  /** The thermostat state, with the swing mode read through `value_or`. */
  datatype State = State(
    mode: ClimateMode,
    targetTemperature: real,
    fanMode: Option<FanMode>,
    swingMode: Option<SwingMode>)

  /** The component: thermostat state and the codec's command state. */
  datatype Component = Component(state: State, ac: SamsungAc)

  type Trace = seq<Event<State>>

  /** `setup()`: the default state over a freshly initialised codec, published once. */
  function Setup(initialAc: SamsungAc): (r: (Component, Trace))
    ensures r.0.ac == initialAc && r.1 == [Published(r.0.state)]
    ensures r.0.state.mode == ModeOff && r.0.state.swingMode == Some(SwingBoth)
    ensures r.0.state.fanMode == Some(FanHigh)
    ensures r.0.state.targetTemperature == 24.0 && SentTemperature(r.0.state.targetTemperature) == 24
  {
    var c := Component(State(ModeOff, 24.0, Some(FanHigh), Some(SwingBoth)), initialAc);
    (c, [Published(c.state)])
  }

  /** `traits()`: the same range, modes and fan modes as the active component,
      with every swing mode advertised whatever the unit can do. */
  function Traits(): (t: ClimateTraits)
    ensures t.visualMinTemperature == MinTemperature as real
    ensures t.visualMaxTemperature == MaxTemperature as real
    ensures t.visualTemperatureStep == 1.0
    ensures t.supportedModes == SupportedModes && t.supportedFanModes == SupportedFanModes
    ensures SwingOff in t.supportedSwingModes && SwingVertical in t.supportedSwingModes
    ensures SwingHorizontal in t.supportedSwingModes && SwingBoth in t.supportedSwingModes
  {
    ClimateTraits(false, false, 16.0, 30.0, 1.0, SupportedModes, SupportedFanModes,
                  {SwingOff, SwingVertical, SwingHorizontal, SwingBoth})
  }

  /** The legacy descriptor is the active one with both swing flags set. */
  lemma TraitsMatchActiveWithAllSwing()
    ensures Traits() == SamsungAcIr.Traits(SamsungAcIr.ClassDefaults)
  {
    var a := SamsungAcIr.Traits(SamsungAcIr.ClassDefaults).supportedSwingModes;
    var l := Traits().supportedSwingModes;
    forall sw: SwingMode ensures sw in a <==> sw in l {
      match sw
      case SwingOff =>
      case SwingBoth =>
      case SwingVertical =>
      case SwingHorizontal =>
    }
  }

  /** `send_ir_()`: power from the mode, the mode only while on, the clamped
      temperature, the fan speed, the vertical swing (unset meaning OFF), and
      the same frame sent twice with the settle delay between. The horizontal
      flag is never written. */
  function SendIr(c: Component): (r: (Component, Trace))
    ensures r.0.state == c.state
    ensures r.0.ac.power == (c.state.mode != ModeOff)
    ensures c.state.mode == ModeOff ==> r.0.ac.mode == c.ac.mode
    ensures c.state.mode in OnModes ==> ClimateModeOf(r.0.ac.mode) == c.state.mode
    ensures c.state.mode == ModeHeatCool ==> r.0.ac.mode == AcCool
    ensures MinTemperature <= r.0.ac.temp <= MaxTemperature
    ensures r.0.ac.temp == SentTemperature(c.state.targetTemperature)
    ensures r.0.ac.fan == SamsungFanOf(c.state.fanMode)
    ensures r.0.ac.swingV == WantsVertical(c.state.swingMode.GetOr(SwingOff))
    ensures r.0.ac.swingH == c.ac.swingH
    ensures r.1 == [Logged(SendLog(r.0.ac.power, c.state.mode, r.0.ac.temp,
                                   c.state.fanMode.GetOr(FanAuto),
                                   c.state.swingMode.GetOr(SwingOff)))]
                   + AsEvents(SendTwice(r.0.ac))
    ensures Frames(r.1) == [r.0.ac, r.0.ac]
  {
    var s := c.state;
    var powerOn := s.mode != ModeOff;
    var ac1 := c.ac.(power := powerOn);
    var ac2 := if !powerOn then ac1 else ac1.(mode := SamsungModeOf(s.mode));
    var t := SentTemperature(s.targetTemperature);
    var ac3 := ac2.(temp := t);
    var ac4 := ac3.(fan := SamsungFanOf(s.fanMode));
    var sw := s.swingMode.GetOr(SwingOff);
    var ac5 := ac4.(swingV := sw == SwingVertical || sw == SwingBoth);
    var log := SendLog(powerOn, s.mode, t, s.fanMode.GetOr(FanAuto), sw);
    FramesAppend<State>([Logged(log)], AsEvents(SendTwice(ac5)));
    SendTwiceFrames<State>(ac5);
    (Component(s, ac5), [Logged(log)] + AsEvents(SendTwice(ac5)))
  }

  /** Merges the present fields of a request into the state. */
  function Merge(s: State, call: ClimateCall): (s': State)
    ensures s'.mode == call.mode.GetOr(s.mode)
    ensures s'.targetTemperature == call.targetTemperature.GetOr(s.targetTemperature)
    ensures s'.fanMode == (if call.fanMode.Some? then call.fanMode else s.fanMode)
    ensures s'.swingMode == (if call.swingMode.Some? then call.swingMode else s.swingMode)
    ensures !call.HasAnyField() ==> s' == s
  {
    var s1 := if call.mode.Some? then s.(mode := call.mode.value) else s;
    var s2 := if call.targetTemperature.Some? then s1.(targetTemperature := call.targetTemperature.value) else s1;
    var s3 := if call.fanMode.Some? then s2.(fanMode := call.fanMode) else s2;
    if call.swingMode.Some? then s3.(swingMode := call.swingMode) else s3
  }

  /** `control()`: an empty request does nothing; any present field makes the
      component run the whole send of the merged state and then publish it once. */
  function Control(c: Component, call: ClimateCall): (r: (Component, Trace))
    ensures !call.HasAnyField() ==> r == (c, [])
    ensures call.HasAnyField() ==>
      && r.0.state == Merge(c.state, call)
      && r.0 == SendIr(c.(state := r.0.state)).0
      && |r.1| > 0 && r.1[|r.1| - 1] == Published(r.0.state)
      && Frames(r.1) == [r.0.ac, r.0.ac]
    ensures call.HasAnyField() ==>
      r.1 == SendIr(c.(state := r.0.state)).1 + [Published(r.0.state)]
  {
    if call.HasAnyField() then
      var (c1, trace) := SendIr(c.(state := Merge(c.state, call)));
      FramesAppend(trace, [Published(c1.state)]);
      (c1, trace + [Published(c1.state)])
    else (c, [])
  }

  /** A request only ever writes the fields it carries. */
  lemma AbsentFieldsUnchanged(c: Component, call: ClimateCall)
    ensures var s' := Control(c, call).0.state;
      && (call.mode.None? ==> s'.mode == c.state.mode)
      && (call.targetTemperature.None? ==> s'.targetTemperature == c.state.targetTemperature)
      && (call.fanMode.None? ==> s'.fanMode == c.state.fanMode)
      && (call.swingMode.None? ==> s'.swingMode == c.state.swingMode)
  {
  }

  /** Setup starts from the active component's initial state, with the swing
      mode held as a present value. */
  lemma SetupMatchesActive(initialAc: SamsungAc, config: SamsungAcIr.Config)
    ensures var s := Setup(initialAc).0.state;
            var a := SamsungAcIr.Setup(config, initialAc).0.state;
            s.swingMode == Some(a.swingMode)
            && SamsungAcIr.State(s.mode, s.targetTemperature, s.fanMode, s.swingMode.GetOr(SwingOff)) == a
  {
  }

  /** The legacy codec frame is the one the active component builds when only
      vertical swing is enabled, whatever the codec's `setSwingH` support. */
  lemma AgreesWithActiveVerticalOnly(c: Component, powerOn: bool, codecHasSwingH: bool)
    ensures var s := c.state;
            var active := SamsungAcIr.Component(
              SamsungAcIr.Config(true, false),
              SamsungAcIr.State(s.mode, s.targetTemperature, s.fanMode, s.swingMode.GetOr(SwingOff)),
              powerOn, c.ac);
            SendIr(c).0.ac == SamsungAcIr.SendIr(active, codecHasSwingH).0.ac
  {
  }
}
