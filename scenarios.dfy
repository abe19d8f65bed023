/**
 * Client-side uses of the Board, showing what a caller can conclude from
 * the method contracts alone.
 */
module Scenarios {
  import opened Types
  import opened BusTrace
  import Nvram
  import opened Esp8266

  /** Bring-up of the radio's bus followed by one byte exchange: the chip
      select (pin 15, active-low) is driven LOW, one byte is exchanged at
      1 MHz, MSB first, mode 0, and the pin is released HIGH. */
  method RadioBringUp(reply: uint8) returns (b: Board, received: uint8)
    ensures b.Valid()
    ensures received == reply
    ensures b.trace == [PinMode(PIN_LED, OUTPUT), BusBegin, BusFrequency(1000000),
                        BusBitOrder(MSBFIRST), BusDataMode(0), PinWrite(15, HIGH),
                        PinWrite(15, LOW), BeginTx(SpiSettings(1000000, MSBFIRST, 0)),
                        Exchange([0xAA], [reply]), EndTx, PinWrite(15, HIGH)]
  {
    b := new Board([], false, false, false);
    var ok := b.SPIBegin(13, 12, 14, 15);
    b.SPISetFrequency(1000000);
    b.SPISetBitOrder(MSBFIRST);
    b.SPISetDataMode(0);
    b.SPISetChipSelectPolarity(15, LOW);
    received := b.SPITransfer(0xAA, reply);
  }

  /** The bus setup calls of RadioBringUp up to the polarity call. */
  function SetupTrace(): seq<Event> {
    [PinMode(PIN_LED, OUTPUT), BusBegin, BusFrequency(1000000), BusBitOrder(MSBFIRST), BusDataMode(0)]
  }

  /** The chip-select levels follow the polarity stored at the time of each
      transfer: switching to active-high between two transfers makes the
      second one select with HIGH and release with LOW. */
  method PolarityChangeBetweenTransfers(first: uint8, second: uint8) returns (b: Board)
    ensures b.Valid()
    ensures b.trace == SetupTrace()
      + Frame(15, LOW, SpiSettings(1000000, MSBFIRST, 0), [0x10], [first])
      + [PinWrite(15, LOW)]
      + Frame(15, HIGH, SpiSettings(1000000, MSBFIRST, 0), [0x20], [second])
  {
    b := new Board([], false, false, false);
    var ok := b.SPIBegin(13, 12, 14, 15);
    b.SPISetFrequency(1000000);
    b.SPISetBitOrder(MSBFIRST);
    b.SPISetDataMode(0);
    ghost var setup := b.trace;
    assert setup == SetupTrace();
    var x := b.SPITransfer(0x10, first);
    b.SPISetChipSelectPolarity(15, HIGH);
    ghost var afterSwitch := b.trace;
    var y := b.SPITransfer(0x20, second);
    assert afterSwitch == setup + Frame(15, LOW, SpiSettings(1000000, MSBFIRST, 0), [0x10], [first]) + [PinWrite(15, LOW)];
  }

  /** Write, commit and read back: the read returns the bytes written, and
      the committed flash image holds them too. */
  method NvramRoundTrip(stored: seq<uint8>, data: seq<uint8>, offset: nat)
    returns (readBack: seq<uint8>, durable: seq<uint8>)
    requires offset + |data| <= |stored|
    ensures readBack == data
    ensures durable == data
  {
    var b := new Board(stored, false, false, false);
    var src := new uint8[|data|](i requires 0 <= i < |data| => data[i]);
    assert src[..] == data;
    b.WriteNVRAM(src, offset, |data|);
    assert src[..|data|] == data;
    Nvram.ReadBack(stored, offset, data);
    b.CommitNVRAM();
    var dst := new uint8[|data|];
    b.ReadNVRAM(dst, offset, |data|);
    assert dst[..] == dst[..|data|];
    readBack := dst[..];
    durable := b.flash[offset..offset + |data|];
  }

  /** After a clear and a commit, every byte read back is the erased value. */
  method ClearThenRead(stored: seq<uint8>, offset: nat, size: nat) returns (readBack: seq<uint8>)
    requires offset + size <= |stored|
    ensures |readBack| == size
    ensures forall k :: 0 <= k < size ==> readBack[k] == ERASED
  {
    var b := new Board(stored, false, false, false);
    b.ClearNVRAM();
    b.CommitNVRAM();
    var dst := new uint8[size];
    b.ReadNVRAM(dst, offset, size);
    assert dst[..] == dst[..size];
    readBack := dst[..];
  }
}
