# ESP8266 Board model (nRF905-API hardware layer)

This project models the ESP8266 `Board` class of the nRF905-API firmware in
Dafny. The `Board` is the hardware layer that the nRF905 radio driver and the
web interface run on. The model covers:

- the SPI engine: `SPIBegin`, `SPIEnd`, the chip-select polarity, the bit
  order, data mode and frequency setters, and the one-byte and n-byte
  transfers. Each transfer selects the chip, runs one bus transaction, then
  releases the chip;
- the GPIO surface: pin mode, pin write, `readPin` with its carrier-detect
  stub, and the active-low on-board LED;
- the interrupt records for the carrier-detect (CD) and data-ready (DR) pins;
- NVRAM, the EEPROM emulation: a RAM working copy written byte by byte, plus
  the flash image that a commit makes durable;
- three introspection helpers that reformat a platform value: the flash-mode
  name, the CPU clock in Hz and the restart-reason report.

`Esp8266.Board` is a class whose fields are the C++ members. A ghost `trace`
records, in program order, these calls into the platform runtime: `pinMode`,
`digitalWrite`, `SPI.begin`/`end`/setters, `beginTransaction`, `transfer`,
`endTransaction`, and interrupt attach and detach. It does not record the
`digitalRead` of `readPin`, the `SPIClass::pins` wiring, or the EEPROM
library calls; the NVRAM effects are stated on the working copy and the
flash image instead. `BusTrace` defines the rules such a
trace obeys:

- A monitor (`Run`) says that transactions never nest, that every exchange
  lies inside a transaction, and that the bus is never reconfigured
  mid-transaction. The invariant `Board.Valid()` keeps the bus idle between
  calls.
- `LastLevel` gives the level a pin was last driven to.
- `Exchanges` and `Transactions` count transfer calls and transactions.

`Nvram.Overwrite` specifies the byte-by-byte write loop. `SystemInfo` holds
the pure helpers. `InterruptsAsWritten` models the interrupt methods exactly
as written (see Findings). `Scenarios` holds client methods that show what a
caller can conclude from the contracts alone.

Values the hardware supplies are parameters: the byte or bytes the slave
shifts back, the level `digitalRead` samples, the flash mode, the CPU clock
in MHz, the reset-reason text, and the flash image loaded at start-up.

In these places the code behaves differently from what a caller might
expect, and the model follows the code:

- `detachInterrupt` on a pin that is neither CD nor DR does nothing. It does
  not forward to the platform.
- NVRAM has no range check, so `offset + size <= length` is a precondition.
  There is no error result.
- `SPIBegin` always reports success.
- `SPISetBitOrder` ignores its argument.
- A zero-length `SPITransfern` still calls the library transfer once, with no
  bytes. The model therefore records one exchange of zero bytes inside the
  chip-select bracket.
- `SPITransfern` passes its `size_t` size to the ESP8266 SPI library's
  `transfer(buf, count)`, whose count is 16 bits wide. A size of 0x10000 or
  more is narrowed modulo 0x10000, so only `TransferCount(size)` bytes are
  exchanged and replaced.

The pin numbers `PIN_LED`, `PIN_CD` and `PIN_DR` are the values given in
`src/nRF905API/src/hardware/esp32.h`. The ESP8266 header is not part of this
model. No proof depends on the values, only on the three pins being
distinct.

## Model

| member | source | states |
|---|---|---|
| `Esp8266.Board.constructor` | src/nRF905API/src/hardware/esp8266.cpp:20-22 | the only platform call is making the LED pin an output; the LED state and both interrupt records start at the given (uninitialised in the source) values; no SPI field counts as set; the working copy equals the loaded flash image |
| `Esp8266.Board.SetPinMode` | src/nRF905API/src/hardware/esp8266.cpp:137-139 | forwards exactly one pinMode call and changes nothing else |
| `Esp8266.Board.WritePin` | src/nRF905API/src/hardware/esp8266.cpp:141-143 | forwards exactly one digitalWrite call; afterwards the pin's last level is the value written |
| `Esp8266.Board.ReadPin` | src/nRF905API/src/hardware/esp8266.cpp:145-150 | the CD pin reads LOW whatever the hardware says; every other pin reads the sampled level |
| `Esp8266.Board.GetOnBoardLED` | src/nRF905API/src/hardware/esp8266.cpp:152-154 | returns the stored logical LED state, so a get after a set returns the value set |
| `Esp8266.Board.SetOnBoardLED` | src/nRF905API/src/hardware/esp8266.cpp:156-163 | stores the logical state and drives PIN_LED once: LOW when on, HIGH when off |
| `Esp8266.LedLevel` | src/nRF905API/src/hardware/esp8266.cpp:159-162 | the LED pin level is LOW exactly when the LED is on (active-low) |
| `Esp8266.Board.SPIBegin` | src/nRF905API/src/hardware/esp8266.cpp:165-174 | records the CS pin, resets the polarity to active-low, marks the SPI object allocated, starts the bus once, and always returns true |
| `Esp8266.Board.SPIEnd` | src/nRF905API/src/hardware/esp8266.cpp:176-180 | stops the bus once and releases the SPI object; the CS pin and the settings are kept |
| `Esp8266.Board.SPISetChipSelectPolarity` | src/nRF905API/src/hardware/esp8266.cpp:182-188 | stores the polarity, then drives the stored CS pin (not the `cs` argument) once, to HIGH for active-low and to LOW otherwise; that is the pin's last level on return |
| `Esp8266.Board.SPISetBitOrder` | src/nRF905API/src/hardware/esp8266.cpp:190-194 | stores and applies MSBFIRST whatever the argument |
| `Esp8266.Board.SPISetDataMode` | src/nRF905API/src/hardware/esp8266.cpp:196-199 | stores and applies the mode unchanged |
| `Esp8266.Board.SPISetFrequency` | src/nRF905API/src/hardware/esp8266.cpp:201-204 | stores and applies the frequency unchanged |
| `Esp8266.Board.SPITransfer` | src/nRF905API/src/hardware/esp8266.cpp:206-224 | returns the slave's byte and appends exactly: CS to the select level of the current polarity, one transaction with the stored frequency, bit order and mode, one 1-byte exchange, close, CS to the idle level; the transaction and exchange counts each grow by one; the bus stays idle between calls |
| `Esp8266.TransferCount` | src/nRF905API/src/hardware/esp8266.cpp:242 | the count the library's transfer receives is below 0x10000, no larger than `size`, equal to `size` for every size below 0x10000, and congruent to `size` modulo 0x10000 |
| `Esp8266.Board.SPITransfern` | src/nRF905API/src/hardware/esp8266.cpp:226-254 | the buffer's first `TransferCount(size)` bytes (all `size` bytes below 0x10000) are replaced by the slave's bytes and the rest is untouched; the same CS bracket surrounds one transaction with a single exchange of those bytes (also for a count of 0); CS ends at the idle level |
| `Esp8266.Board.ReadNVRAM` | src/nRF905API/src/hardware/esp8266.cpp:256-261 | the buffer's first `size` bytes equal the working copy at `offset..offset+size`; the rest of the buffer is untouched |
| `Esp8266.Board.WriteNVRAM` | src/nRF905API/src/hardware/esp8266.cpp:263-268 | the working copy becomes `Overwrite(old copy, offset, buffer[..size])`; the flash image is unchanged |
| `Esp8266.Board.ClearNVRAM` | src/nRF905API/src/hardware/esp8266.cpp:270-275 | every byte of the working copy, up to its full length, becomes 0xFF |
| `Esp8266.Board.CommitNVRAM` | src/nRF905API/src/hardware/esp8266.cpp:277-279 | the durable flash image becomes equal to the working copy |
| `Esp8266.Board.AttachInterrupt` | src/nRF905API/src/hardware/esp8266.cpp:285-291 | makes one platform attach call; the CD record becomes set iff it was set or the pin is PIN_CD, and likewise for DR |
| `Esp8266.Board.DetachInterrupt` | src/nRF905API/src/hardware/esp8266.cpp:293-302 | makes one platform detach call and clears that record alone, but only when the pin is CD or DR and its record is set; otherwise the trace and both records are unchanged |
| `BusTrace.SelectLevel` | src/nRF905API/src/hardware/esp8266.cpp:209-212 | the select level is LOW or HIGH, and for a polarity of LOW or HIGH it equals the polarity |
| `BusTrace.IdleLevel` | src/nRF905API/src/hardware/esp8266.cpp:218-221 | the idle level is LOW or HIGH and always differs from the select level |
| `BusTrace.Frame` | src/nRF905API/src/hardware/esp8266.cpp:206-254 | one transfer emits five events: CS driven to the select level, `BeginTx` with the settings, one `Exchange(sent, received)`, `EndTx`, and CS driven back to the other (idle) level |
| `BusTrace.FrameKeepsIdle` | src/nRF905API/src/hardware/esp8266.cpp:214-216 | appending a transfer bracket to an idle trace leaves the bus idle with no protocol fault |
| `BusTrace.FrameIsBalanced` | src/nRF905API/src/hardware/esp8266.cpp:239-243 | a bracket takes an idle bus back to idle, and inside an open transaction it faults, so transactions never nest |
| `BusTrace.NestedFrameFaultsForever` | src/nRF905API/src/hardware/esp8266.cpp:214-216 | a bracket begun while a transaction is already open leaves the trace faulted whatever follows, which is why each transfer must start and end with the bus idle |
| `BusTrace.FrameReleasesChipSelect` | src/nRF905API/src/hardware/esp8266.cpp:250-253 | after a transfer, whatever came before, the CS pin's last level is the idle level |
| `BusTrace.FrameSelectsDuringExchange` | src/nRF905API/src/hardware/esp8266.cpp:229-242 | when the exchange happens, CS was last driven to the select level |
| `BusTrace.FrameLeavesOtherPins` | src/nRF905API/src/hardware/esp8266.cpp:206-224 | a transfer does not change the last level of any pin other than CS |
| `BusTrace.FrameIsOneTransaction` | src/nRF905API/src/hardware/esp8266.cpp:239-243 | a transfer adds exactly one transaction and exactly one exchange that carries all its bytes, never one per byte |
| `Nvram.Overwrite` | src/nRF905API/src/hardware/esp8266.cpp:266-267 | the byte-by-byte write keeps the length of the working copy |
| `Nvram.OverwriteAt` | src/nRF905API/src/hardware/esp8266.cpp:263-268 | after a write, each byte in `[offset, offset+size)` is the matching buffer byte and every other byte is the old one |
| `Nvram.ReadBack` | src/nRF905API/src/hardware/esp8266.cpp:256-268 | reading the written range after a write returns exactly the bytes written |
| `Nvram.OutsideUnchanged` | src/nRF905API/src/hardware/esp8266.cpp:263-268 | the bytes before `offset` and after `offset+size` are unchanged by a write |
| `Nvram.DisjointWritesCommute` | src/nRF905API/src/hardware/esp8266.cpp:263-268 | writes to disjoint ranges can be applied in either order with the same result |
| `Nvram.Erased` | src/nRF905API/src/hardware/esp8266.cpp:273-274 | the cleared image has the region's length and holds 0xFF at every index |
| `Nvram.ClearIsFullWrite` | src/nRF905API/src/hardware/esp8266.cpp:270-275 | clearing equals writing 0xFF over the whole region, whatever it held before |
| `SystemInfo.FlashModeName` | src/nRF905API/src/hardware/esp8266.cpp:71-75 | the name is "UNKNOWN" iff the mode is none of QIO, QOUT, DIO, DOUT, and a known mode's name parses back to that mode |
| `SystemInfo.FlashModeNamesDistinct` | src/nRF905API/src/hardware/esp8266.cpp:74 | a known mode's name differs from the name of any other mode |
| `SystemInfo.CpuFreqHz` | src/nRF905API/src/hardware/esp8266.cpp:39-41 | the Hz value is a whole number of MHz equal to the platform's MHz, so the 32-bit result never wraps |
| `SystemInfo.RestartReason` | src/nRF905API/src/hardware/esp8266.cpp:35-37 | the report is the reason plus 11 characters of wrapping, and the reason is recovered from it unchanged |
| `SystemInfo.ReasonOfIsInverse` | src/nRF905API/src/hardware/esp8266.cpp:35-37 | every well-formed report is the wrapping of the reason extracted from it |
| `InterruptsAsWritten.AttachAsWritten` | src/nRF905API/src/hardware/esp8266.cpp:285-291 | attachInterrupt as written: the self-call comes before both record stores, `depth` bounds the stack, and a call that returned would have set the pin's own record |
| `InterruptsAsWritten.AttachAsWrittenNeverReturns` | src/nRF905API/src/hardware/esp8266.cpp:285-286 | as written, attachInterrupt never returns at any stack depth, so no record is ever set |
| `InterruptsAsWritten.DetachAsWritten` | src/nRF905API/src/hardware/esp8266.cpp:293-302 | detachInterrupt as written: each guarded branch calls itself with the record still set before clearing it, `depth` bounds the stack, and whenever a call returns the pin's own record is clear |
| `InterruptsAsWritten.DetachAsWrittenDiverges` | src/nRF905API/src/hardware/esp8266.cpp:293-302 | as written, detachInterrupt returns iff the pin is not a reserved pin with its record set, and when it returns the records are unchanged |
| `Scenarios.RadioBringUp` | src/nRF905API/src/hardware/esp8266.cpp:165-224 | after begin(13,12,14,15), 1 MHz, MSBFIRST, mode 0 and active-low polarity, sending 0xAA gives the whole trace: pin 15 driven HIGH, then LOW, one exchange at those settings, then HIGH again; the slave's byte is returned |
| `Scenarios.PolarityChangeBetweenTransfers` | src/nRF905API/src/hardware/esp8266.cpp:182-224 | switching to active-high between two transfers makes the second one select with HIGH and release with LOW |
| `Scenarios.NvramRoundTrip` | src/nRF905API/src/hardware/esp8266.cpp:256-279 | a write, a commit and a read of the same range return the bytes written, and the flash image holds them |
| `Scenarios.ClearThenRead` | src/nRF905API/src/hardware/esp8266.cpp:256-279 | after a clear and a commit, every byte read back from any in-range offset is 0xFF |

## Left out

- Esp8266.Board.SPITransfern: the ESP8266 SPI library is not part of this model. Only the width of its `transfer` count parameter is taken from its declaration; the byte shifting is modelled as one exchange.
- Introspection forwards with no logic (`get_arch`, `getSdkVersion`, `get_vcc`, the chip, flash, sketch and heap getters, `get_core_version`, `setADCtoVccMode`): each returns a platform value unchanged.
- `checkFlashCRC` is a hard-coded `true` stub, and `get_core_revision` returns a string literal from a `uint32_t` function. Neither has behaviour to model.
- `reset`, `deepSleep`, the hostname accessors, `get_localIPv6` ("n.a.") and `enable_IPv6` (false) are platform and network-stack calls.
- The web server instance and `ADC_MODE` are I/O set-up.
- The handler argument of `attachInterrupt` is not kept, and interrupt delivery and preemption are not modelled. Only the pin, the mode and the two records are.
- Memory handling of the SPI object is not modelled. `SPIBegin` allocates with `new` and `SPIEnd` frees with `free`, and a second `SPIBegin` leaks the first object. The model keeps only a ghost flag saying whether the object is live, and requires it for `SPITransfern`.
- The `SPIClass::pins` wiring in `SPIBegin` is not modelled.
- `SPITransfern` sends through the allocated `_spi` object while the transaction is opened on the global `SPI`. The model treats both as the one hardware bus.
- The EEPROM library itself (`EEPROM.begin`, its own range checks and dirty flag) is not part of this model. The working copy and the flash image are owned by the `Board` object here. The flash image is loaded once, by the constructor.
- Esp8266.Board.CommitNVRAM: a successful commit is assumed. `EEPROM.commit()` reports a failed flash erase or write by returning false, in which case the old image stays, but `Board::CommitNVRAM` ignores that result; the model always makes the flash image equal to the working copy, so the durability shown by `Scenarios.NvramRoundTrip` holds only when the commit succeeds.
- Esp8266.Board.ReadNVRAM and Esp8266.Board.WriteNVRAM require `offset + size <= length`, because the code has no range check. Outside that range the platform library decides what happens.
- Esp8266.Board.SPITransfer and Esp8266.Board.SPITransfern require `SPIBegin` and the three setters to have run first. The constructor leaves those fields uninitialised. Esp8266.Board.SPISetChipSelectPolarity likewise requires `SPIBegin` first.
- Electrical timing and the bytes the slave returns are not modelled. The returned bytes are inputs.

## Findings

| source | as written | input that shows it | evidently intended | confidence | as-written member | corrected member |
|---|---|---|---|---|---|---|
| src/nRF905API/src/hardware/esp8266.cpp:285-291 | inside `Board::attachInterrupt`, the unqualified call `attachInterrupt(pin, handler, mode)` resolves to the member itself, so the method recurses until the stack is exhausted and never sets a record | any pin, e.g. `attachInterrupt(PIN_CD, h, RISING)` | one call to the platform's attachInterrupt, then set the record of the matching reserved pin | high (C++ class-scope lookup; not executed) | `InterruptsAsWritten.AttachAsWrittenNeverReturns` | `Esp8266.Board.AttachInterrupt` |
| src/nRF905API/src/hardware/esp8266.cpp:293-302 | inside `Board::detachInterrupt`, `detachInterrupt(pin)` resolves to the member itself and runs before the record is cleared, so detaching an attached reserved pin recurses without end | `detachInterrupt(PIN_CD)` with the CD record set | one call to the platform's detachInterrupt, then clear that pin's record | high (C++ class-scope lookup; not executed) | `InterruptsAsWritten.DetachAsWrittenDiverges` | `Esp8266.Board.DetachInterrupt` |
