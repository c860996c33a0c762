/** The Samsung air-conditioner codec (IRremoteESP8266's `IRSamsungAc`),
    seen only through the fields the climate components set. Its bit
    protocol and pulse timing are not part of this model: the codec is a
    record, and a transmission is an event carrying a copy of it. */
module SamsungCodec {

  /** The codec's operating modes (`kSamsungAcCool`, ...). */
  datatype SamsungMode = AcAuto | AcCool | AcDry | AcFan | AcHeat

  /** The codec's fan speeds (`kSamsungAcFanAuto`, ...). */
  datatype SamsungFan = AcFanAuto | AcFanLow | AcFanMed | AcFanHigh

  /** The command state held by the codec between calls. */
  datatype SamsungAc = SamsungAc(
    power: bool,
    mode: SamsungMode,
    temp: int,
    fan: SamsungFan,
    swingV: bool,
    swingH: bool)

  /** The fixed settle delay between the two transmissions, in milliseconds. */
  const SettleDelayMs: nat := 120

  /** What leaves the transmitter: a frame, or a blocking pause. */
  datatype TxEvent = Transmit(frame: SamsungAc) | Pause(ms: nat)

  /** The redundant transmission every command goes through: the same frame
      twice, with the settle delay between. */
  function SendTwice(frame: SamsungAc): (tx: seq<TxEvent>)
    ensures |tx| == 3
    ensures tx[0] == tx[2] == Transmit(frame)
    ensures tx[1] == Pause(SettleDelayMs)
  {
    [Transmit(frame), Pause(SettleDelayMs), Transmit(frame)]
  }
}
