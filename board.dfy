/**
 * The ESP8266 Board: SPI bus configuration and chip-select handling, the
 * on-board LED, the carrier-detect/data-ready interrupt records and the
 * NVRAM working copy with its committed flash image. The ghost `trace`
 * records, in order, the pinMode and digitalWrite calls, the SPI begin, end,
 * setter, transaction and transfer calls, and the interrupt attach and
 * detach calls. The digitalRead of readPin, the SPIClass::pins wiring and
 * the EEPROM library calls are not recorded.
 */
module Esp8266 {
  import opened Types
  import opened BusTrace
  import Nvram

  /** The physical level of the active-low on-board LED for a logical state. */
  function LedLevel(on: bool): (level: uint8)
    ensures level == LOW || level == HIGH
    ensures level == LOW <==> on
  {
    if on then LOW else HIGH
  }

  /** The count the library's `transfer(buf, count)` receives: its count
      parameter is 16 bits wide, so the `size_t` size is narrowed modulo
      2^16 and sizes from 0x10000 up wrap to a shorter transfer. */
  function TransferCount(size: nat): (count: nat)
    ensures count < 0x1_0000 && count <= size
    ensures size < 0x1_0000 ==> count == size
    ensures (size - count) % 0x1_0000 == 0
  {
    size % 0x1_0000
  }

  class Board {
    // SPI bus configuration (_spi_frequency, _spi_bitorder, _spi_datamode,
    // _spi_cs, _spi_cs_active).
    var spiFrequency: uint32
    var spiBitOrder: uint8
    var spiDataMode: uint8
    var spiCs: uint8
    var spiCsActive: uint8
    // Logical on-board LED state and the two interrupt attachment records.
    var led: bool
    var cdAttached: bool
    var drAttached: bool

    /** The EEPROM working copy in RAM. */
    const eeprom: array<uint8>
    /** The flash image a commit last wrote; what survives a reset. */
    var flash: seq<uint8>

    /** Platform calls made so far, oldest first. */
    ghost var trace: seq<Event>
    // Which SPI fields hold a value the source has assigned: the constructor
    // leaves them uninitialised, so a transfer before SPIBegin and the three
    // setters reads indeterminate values.
    ghost var csKnown: bool
    ghost var frequencySet: bool
    ghost var bitOrderSet: bool
    ghost var dataModeSet: bool
    /** `_spi` points to a live SPIClass (allocated by SPIBegin, freed by SPIEnd). */
    ghost var spiAllocated: bool

    ghost predicate Valid()
      reads this
    {
      |flash| == eeprom.Length && Run(Idle, trace) == Idle
    }

    /** Everything a transfer reads has been set. */
    ghost predicate Configured()
      reads this
    {
      csKnown && frequencySet && bitOrderSet && dataModeSet
    }

    /** The settings every transaction opens with. */
    function Settings(): SpiSettings
      reads this
    {
      SpiSettings(spiFrequency, spiBitOrder, spiDataMode)
    }

    /** Board(): configures the LED pin as an output. The LED state and the
        interrupt records are left uninitialised by the source; their
        initial values are parameters here, as is the flash image the
        EEPROM emulation loaded into its working copy. */
    constructor (stored: seq<uint8>, ledInit: bool, cdInit: bool, drInit: bool)
      ensures Valid() && fresh(eeprom)
      ensures eeprom[..] == stored && flash == stored
      ensures led == ledInit && cdAttached == cdInit && drAttached == drInit
      ensures trace == [PinMode(PIN_LED, OUTPUT)]
      ensures !Configured() && !spiAllocated
      ensures !csKnown && !frequencySet && !bitOrderSet && !dataModeSet
    {
      spiFrequency, spiBitOrder, spiDataMode, spiCs, spiCsActive := 0, 0, 0, 0, 0;
      led, cdAttached, drAttached := ledInit, cdInit, drInit;
      eeprom := new uint8[|stored|](i requires 0 <= i < |stored| => stored[i]);
      flash := stored;
      trace := [PinMode(PIN_LED, OUTPUT)];
      csKnown, frequencySet, bitOrderSet, dataModeSet := false, false, false, false;
      spiAllocated := false;
      new;
      assert eeprom[..] == stored;
      assert Run(Idle, trace) == Run(Step(Idle, trace[0]), trace[1..]);
    }

    // -------------------------------------------------------------------
    // GPIO

    method SetPinMode(pin: uint8, mode: uint8)
      requires Valid()
      modifies this`trace
      ensures Valid()
      ensures trace == old(trace) + [PinMode(pin, mode)]
    {
      OutsideTxKeepsIdle(trace, PinMode(pin, mode));
      trace := trace + [PinMode(pin, mode)];
    }

    method WritePin(pin: uint8, value: uint8)
      requires Valid()
      modifies this`trace
      ensures Valid()
      ensures trace == old(trace) + [PinWrite(pin, value)]
      ensures LastLevel(trace, pin) == Some(value)
    {
      OutsideTxKeepsIdle(trace, PinWrite(pin, value));
      trace := trace + [PinWrite(pin, value)];
      assert trace[|trace| - 1] == PinWrite(pin, value);
    }

    /** readPin: the carrier-detect pin is never sampled and always reads
        LOW; every other pin reads what the hardware reports (`sampled`). */
    method ReadPin(pin: uint8, sampled: uint8) returns (value: uint8)
      ensures pin == PIN_CD ==> value == LOW
      ensures pin != PIN_CD ==> value == sampled
    {
      if pin == PIN_CD {
        value := LOW;
      } else {
        value := sampled;
      }
    }

    method GetOnBoardLED() returns (on: bool)
      ensures on == led
    {
      on := led;
    }

    /** setOnBoardLED: records the logical state and drives the active-low
        LED pin, so the pin ends LOW exactly when the LED is on. */
    method SetOnBoardLED(value: bool)
      requires Valid()
      modifies this`led, this`trace
      ensures Valid()
      ensures led == value
      ensures trace == old(trace) + [PinWrite(PIN_LED, LedLevel(value))]
      ensures LastLevel(trace, PIN_LED) == Some(LedLevel(value))
    {
      led := value;
      OutsideTxKeepsIdle(trace, PinWrite(PIN_LED, LedLevel(value)));
      trace := trace + [PinWrite(PIN_LED, LedLevel(value))];
      assert trace[|trace| - 1] == PinWrite(PIN_LED, LedLevel(value));
    }

    // -------------------------------------------------------------------
    // SPI

    /** SPIBegin: records the chip-select pin, resets the polarity to
        active-low, allocates the SPI object and starts the bus. Always
        reports success. */
    method SPIBegin(mosi: uint8, miso: uint8, clk: uint8, cs: uint8) returns (ok: bool)
      requires Valid()
      modifies this`spiCs, this`spiCsActive, this`csKnown, this`spiAllocated, this`trace
      ensures Valid()
      ensures ok
      ensures spiCs == cs && spiCsActive == LOW
      ensures csKnown && spiAllocated
      ensures trace == old(trace) + [BusBegin]
    {
      spiCs := cs;
      spiCsActive := LOW;
      csKnown := true;
      spiAllocated := true;
      OutsideTxKeepsIdle(trace, BusBegin);
      trace := trace + [BusBegin];
      ok := true;
    }

    /** SPIEnd: stops the bus and releases the SPI object; the recorded
        chip-select pin and settings stay as they were. */
    method SPIEnd()
      requires Valid()
      modifies this`spiAllocated, this`trace
      ensures Valid()
      ensures !spiAllocated
      ensures trace == old(trace) + [BusEnd]
    {
      spiAllocated := false;
      OutsideTxKeepsIdle(trace, BusEnd);
      trace := trace + [BusEnd];
    }

    /** SPISetChipSelectPolarity: stores the polarity and drives the STORED
        chip-select pin (not the `cs` argument, which is ignored) to the
        resting level of the new polarity. */
    method SPISetChipSelectPolarity(cs: uint8, active: uint8)
      requires Valid() && csKnown
      modifies this`spiCsActive, this`trace
      ensures Valid()
      ensures spiCsActive == active
      ensures trace == old(trace) + [PinWrite(spiCs, IdleLevel(active))]
      ensures LastLevel(trace, spiCs) == Some(IdleLevel(active))
    {
      spiCsActive := active;
      OutsideTxKeepsIdle(trace, PinWrite(spiCs, IdleLevel(active)));
      trace := trace + [PinWrite(spiCs, IdleLevel(active))];
      assert trace[|trace| - 1] == PinWrite(spiCs, IdleLevel(active));
    }

    /** SPISetBitOrder: the argument is ignored; the bit order is always
        MSB first. */
    method SPISetBitOrder(order: uint8)
      requires Valid()
      modifies this`spiBitOrder, this`bitOrderSet, this`trace
      ensures Valid()
      ensures spiBitOrder == MSBFIRST && bitOrderSet
      ensures trace == old(trace) + [BusBitOrder(MSBFIRST)]
    {
      spiBitOrder := MSBFIRST;
      bitOrderSet := true;
      OutsideTxKeepsIdle(trace, BusBitOrder(MSBFIRST));
      trace := trace + [BusBitOrder(MSBFIRST)];
    }

    method SPISetDataMode(mode: uint8)
      requires Valid()
      modifies this`spiDataMode, this`dataModeSet, this`trace
      ensures Valid()
      ensures spiDataMode == mode && dataModeSet
      ensures trace == old(trace) + [BusDataMode(mode)]
    {
      spiDataMode := mode;
      dataModeSet := true;
      OutsideTxKeepsIdle(trace, BusDataMode(mode));
      trace := trace + [BusDataMode(mode)];
    }

    method SPISetFrequency(frequency: uint32)
      requires Valid()
      modifies this`spiFrequency, this`frequencySet, this`trace
      ensures Valid()
      ensures spiFrequency == frequency && frequencySet
      ensures trace == old(trace) + [BusFrequency(frequency)]
    {
      spiFrequency := frequency;
      frequencySet := true;
      OutsideTxKeepsIdle(trace, BusFrequency(frequency));
      trace := trace + [BusFrequency(frequency)];
    }

    /** SPITransfer: exchanges one byte inside a single transaction,
        bracketed by selecting and releasing the chip-select line at the
        levels of the polarity stored at the time of the call. `reply` is
        the byte the slave shifts back. */
    method SPITransfer(out: uint8, reply: uint8) returns (received: uint8)
      requires Valid() && Configured()
      modifies this`trace
      ensures Valid()
      ensures received == reply
      ensures trace == old(trace) + Frame(spiCs, spiCsActive, Settings(), [out], [reply])
      ensures Exchanges(trace) == Exchanges(old(trace)) + [[out]]
      ensures Transactions(trace) == Transactions(old(trace)) + 1
      ensures LastLevel(trace, spiCs) == Some(IdleLevel(spiCsActive))
    {
      ghost var before := trace;
      received := reply;
      FrameKeepsIdle(before, spiCs, spiCsActive, Settings(), [out], [received]);
      FrameIsOneTransaction(before, spiCs, spiCsActive, Settings(), [out], [received]);
      FrameReleasesChipSelect(before, spiCs, spiCsActive, Settings(), [out], [received]);
      trace := trace + Frame(spiCs, spiCsActive, Settings(), [out], [received]);
    }

    /** SPITransfern: exchanges the first TransferCount(size) bytes of
        `buffer` in place, in ONE transfer call inside ONE transaction, with
        the same chip-select bracket as SPITransfer; with a count of zero the
        line is still selected and released. `replies` are the bytes the
        slave shifts back. */
    method SPITransfern(buffer: array<uint8>, size: nat, replies: seq<uint8>)
      requires Valid() && Configured() && spiAllocated
      requires size <= buffer.Length && |replies| == TransferCount(size)
      modifies this`trace, buffer
      ensures Valid()
      ensures buffer[..TransferCount(size)] == replies
      ensures buffer[TransferCount(size)..] == old(buffer[TransferCount(size)..])
      ensures trace == old(trace) + Frame(spiCs, spiCsActive, Settings(), old(buffer[..TransferCount(size)]), replies)
      ensures Exchanges(trace) == Exchanges(old(trace)) + [old(buffer[..TransferCount(size)])]
      ensures Transactions(trace) == Transactions(old(trace)) + 1
      ensures LastLevel(trace, spiCs) == Some(IdleLevel(spiCsActive))
    {
      var count := TransferCount(size);
      ghost var before := trace;
      ghost var sent := buffer[..count];
      forall i | 0 <= i < count {
        buffer[i] := replies[i];
      }
      FrameKeepsIdle(before, spiCs, spiCsActive, Settings(), sent, replies);
      FrameIsOneTransaction(before, spiCs, spiCsActive, Settings(), sent, replies);
      FrameReleasesChipSelect(before, spiCs, spiCsActive, Settings(), sent, replies);
      trace := trace + Frame(spiCs, spiCsActive, Settings(), sent, replies);
    }

    // -------------------------------------------------------------------
    // NVRAM

    /** ReadNVRAM: copies `size` working-copy bytes starting at `offset`
        into `buffer`, one byte at a time. */
    method ReadNVRAM(buffer: array<uint8>, offset: nat, size: nat)
      requires buffer != eeprom
      requires size <= buffer.Length && offset + size <= eeprom.Length
      modifies buffer
      ensures buffer[..size] == eeprom[offset..offset + size]
      ensures buffer[size..] == old(buffer[size..])
    {
      var i := 0;
      while i < size
        invariant 0 <= i <= size
        invariant forall k :: 0 <= k < i ==> buffer[k] == eeprom[offset + k]
        invariant forall k :: size <= k < buffer.Length ==> buffer[k] == old(buffer[k])
      {
        buffer[i] := eeprom[offset + i];
        i := i + 1;
      }
    }

    /** WriteNVRAM: stores `size` bytes of `buffer` into the working copy
        starting at `offset`, one byte at a time; nothing is durable until
        a commit. */
    method WriteNVRAM(buffer: array<uint8>, offset: nat, size: nat)
      requires buffer != eeprom
      requires size <= buffer.Length && offset + size <= eeprom.Length
      modifies eeprom
      ensures eeprom[..] == Nvram.Overwrite(old(eeprom[..]), offset, buffer[..size])
    {
      var i := 0;
      while i < size
        invariant 0 <= i <= size
        invariant forall k :: 0 <= k < eeprom.Length ==>
          eeprom[k] == if offset <= k < offset + i then buffer[k - offset] else old(eeprom[k])
      {
        eeprom[offset + i] := buffer[i];
        i := i + 1;
      }
      ghost var want := Nvram.Overwrite(old(eeprom[..]), offset, buffer[..size]);
      forall k | 0 <= k < eeprom.Length
        ensures eeprom[k] == want[k]
      {
        Nvram.OverwriteAt(old(eeprom[..]), offset, buffer[..size], k);
      }
    }

    /** ClearNVRAM: writes the erased value to every byte of the working copy. */
    method ClearNVRAM()
      modifies eeprom
      ensures eeprom[..] == Nvram.Erased(eeprom.Length)
    {
      var i := 0;
      while i < eeprom.Length
        invariant 0 <= i <= eeprom.Length
        invariant forall k :: 0 <= k < i ==> eeprom[k] == ERASED
      {
        eeprom[i] := ERASED;
        i := i + 1;
      }
    }

    /** CommitNVRAM: makes the working copy durable. */
    method CommitNVRAM()
      requires Valid()
      modifies this`flash
      ensures Valid()
      ensures flash == eeprom[..]
    {
      flash := eeprom[..];
    }

    // -------------------------------------------------------------------
    // Interrupts

    /** attachInterrupt: forwards to the platform once and marks the record
        of the matching reserved pin attached; other pins leave both records
        alone. */
    method AttachInterrupt(pin: uint8, edge: int)
      requires Valid()
      modifies this`cdAttached, this`drAttached, this`trace
      ensures Valid()
      ensures cdAttached == (old(cdAttached) || pin == PIN_CD)
      ensures drAttached == (old(drAttached) || pin == PIN_DR)
      ensures trace == old(trace) + [IrqAttach(pin, edge)]
    {
      OutsideTxKeepsIdle(trace, IrqAttach(pin, edge));
      trace := trace + [IrqAttach(pin, edge)];
      if pin == PIN_CD {
        cdAttached := true;
      }
      if pin == PIN_DR {
        drAttached := true;
      }
    }

    /** detachInterrupt: acts only for a reserved pin whose record says
        attached, then detaches once and clears that record alone; for any
        other pin, or a reserved pin not attached, nothing happens. */
    method DetachInterrupt(pin: uint8)
      requires Valid()
      modifies this`cdAttached, this`drAttached, this`trace
      ensures Valid()
      ensures cdAttached == (old(cdAttached) && pin != PIN_CD)
      ensures drAttached == (old(drAttached) && pin != PIN_DR)
      ensures trace == old(trace) +
        (if (pin == PIN_CD && old(cdAttached)) || (pin == PIN_DR && old(drAttached))
         then [IrqDetach(pin)] else [])
    {
      if pin == PIN_CD && cdAttached {
        OutsideTxKeepsIdle(trace, IrqDetach(pin));
        trace := trace + [IrqDetach(pin)];
        cdAttached := false;
      }
      if pin == PIN_DR && drAttached {
        OutsideTxKeepsIdle(trace, IrqDetach(pin));
        trace := trace + [IrqDetach(pin)];
        drAttached := false;
      }
    }
  }
}
