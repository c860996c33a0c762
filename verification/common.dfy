/** Small shared vocabulary: an optional value and the C fixed-width unsigned
    integer ranges used by the firmware. */
module Common {

  /** An optional value, as ESPHome's `optional<T>` and a null pointer are used. */
  datatype Option<+T> = None | Some(value: T) {

    /** The wrapped value, or `default` when there is none (`value_or`). */
    function GetOr(default: T): T {
      match this
      case Some(v) => v
      case None => default
    }
  }

  const UINT8_LIMIT: int := 0x100
  const UINT16_LIMIT: int := 0x1_0000
  const UINT32_LIMIT: int := 0x1_0000_0000

  type uint8 = x: int | 0 <= x < UINT8_LIMIT
  type uint16 = x: int | 0 <= x < UINT16_LIMIT
  type uint32 = x: int | 0 <= x < UINT32_LIMIT

  /** Unsigned 32-bit subtraction: the result wraps modulo 2^32. */
  function Sub32(a: uint32, b: uint32): (r: uint32)
    ensures (r + b) % UINT32_LIMIT == a
    ensures a >= b ==> r == a - b
    ensures a < b ==> r == a - b + UINT32_LIMIT
  {
    (a - b) % UINT32_LIMIT
  }
}
