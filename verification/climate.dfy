/** The part of ESPHome's climate vocabulary the Samsung components use:
    the mode, fan and swing enumerations, the sparse `ClimateCall` request
    and the `ClimateTraits` capability descriptor. */
module Climate {
  import opened Common

  /** ESPHome's `ClimateMode`. `ModeHeatCool` is not offered by the Samsung
      components but can still be requested, and reaches the default arm. */
  datatype ClimateMode =
    | ModeOff | ModeHeatCool | ModeCool | ModeHeat | ModeFanOnly | ModeDry | ModeAuto

  /** ESPHome's `ClimateFanMode`. */
  datatype FanMode =
    | FanOn | FanOff | FanAuto | FanLow | FanMedium | FanHigh
    | FanMiddle | FanFocus | FanDiffuse | FanQuiet

  /** ESPHome's `ClimateSwingMode`. */
  datatype SwingMode = SwingOff | SwingBoth | SwingVertical | SwingHorizontal

  /** A sparse state-change request: each absent field means "leave as is". */
  datatype ClimateCall = ClimateCall(
    mode: Option<ClimateMode>,
    targetTemperature: Option<real>,
    fanMode: Option<FanMode>,
    swingMode: Option<SwingMode>)
  {
    /** True when at least one field of the request is present. */
    predicate HasAnyField() {
      mode.Some? || targetTemperature.Some? || fanMode.Some? || swingMode.Some?
    }
  }

  const EmptyCall := ClimateCall(None, None, None, None)

  /** The capability descriptor a climate component advertises. */
  datatype ClimateTraits = ClimateTraits(
    supportsCurrentTemperature: bool,
    supportsTwoPointTargetTemperature: bool,
    visualMinTemperature: real,
    visualMaxTemperature: real,
    visualTemperatureStep: real,
    supportedModes: set<ClimateMode>,
    supportedFanModes: set<FanMode>,
    supportedSwingModes: set<SwingMode>)

  /** The modes both Samsung components advertise. */
  const SupportedModes: set<ClimateMode> :=
    {ModeOff, ModeCool, ModeHeat, ModeDry, ModeFanOnly, ModeAuto}

  /** The fan modes both Samsung components advertise. */
  const SupportedFanModes: set<FanMode> := {FanAuto, FanLow, FanMedium, FanHigh}

  /** The swing mode asks the louvers to oscillate vertically. */
  predicate WantsVertical(sw: SwingMode) {
    sw == SwingVertical || sw == SwingBoth
  }

  /** The swing mode asks the louvers to oscillate horizontally. */
  predicate WantsHorizontal(sw: SwingMode) {
    sw == SwingHorizontal || sw == SwingBoth
  }

  /** The swing mode whose axes are exactly `vertical` and `horizontal`. */
  function SwingOfAxes(vertical: bool, horizontal: bool): (sw: SwingMode)
    ensures WantsVertical(sw) == vertical && WantsHorizontal(sw) == horizontal
  {
    if vertical && horizontal then SwingBoth
    else if vertical then SwingVertical
    else if horizontal then SwingHorizontal
    else SwingOff
  }

  /** A swing mode is determined by the two axes it asks for. */
  lemma SwingAxesDetermineMode(sw: SwingMode)
    ensures SwingOfAxes(WantsVertical(sw), WantsHorizontal(sw)) == sw
  {
  }
}
