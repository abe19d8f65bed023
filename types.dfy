/** Machine types and the Arduino/ESP8266 constants the Board relies on. */
module Types {

  /** C's uint8_t: pins, levels, modes and data bytes. */
  newtype uint8 = x: int | 0 <= x < 0x100

  /** C's uint32_t: the SPI clock in Hz and the CPU clock in Hz. */
  newtype uint32 = x: int | 0 <= x < 0x1_0000_0000

  datatype Option<T> = None | Some(value: T)

  // Logic levels of digitalWrite/digitalRead.
  const LOW: uint8 := 0
  const HIGH: uint8 := 1

  // Bit orders of the Arduino SPI library.
  const LSBFIRST: uint8 := 0
  const MSBFIRST: uint8 := 1

  // pinMode direction used by the Board constructor.
  const OUTPUT: uint8 := 1

  // Board pins with special handling: the on-board LED, the radio's
  // carrier-detect and data-ready lines (values as in esp32.h; the model
  // depends only on the three being distinct).
  const PIN_LED: uint8 := 2
  const PIN_CD: uint8 := 33
  const PIN_DR: uint8 := 35

  /** The byte the NVRAM clear operation writes everywhere. */
  const ERASED: uint8 := 0xFF
}
