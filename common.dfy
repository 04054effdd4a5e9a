/** Types shared by the occupancy sensor, its edge queue and the LED indicator. */
module Common {

  /** An optional value: a pending deadline, a stored attribute, a queued record. */
  datatype Option<+T> = None | Some(value: T)

  /** The subset of ESP-IDF `esp_err_t` codes that the modelled drivers return. */
  datatype EspErr = EspOk | ErrInvalidArg | ErrInvalidState

  /** C `uint16_t`. */
  type uint16 = x: int | 0 <= x < 0x1_0000

  /** C `uint32_t`. */
  type uint32 = x: int | 0 <= x < 0x1_0000_0000

  /** C `uint64_t`. */
  type uint64 = x: int | 0 <= x < 0x1_0000_0000_0000_0000
}
