# libspi — a Dafny model of the polled SPI byte-transfer discipline

libspi is a small SPI driver library for two microcontroller families. For the
ATmega328P there are two drivers: `src/spi_atmega.c` keeps a global role and
an interrupt-fed receive buffer, and `atmega_spi.c` is a stateless variant.
For the Tiva C there is `src/spi_tiva.c`, which goes through the TivaWare SSI
driver. This project models all three drivers. It proves:

- which register bits each open/initialize routine forces to 1 or 0, and that
  every other bit of DDRB and PORTB keeps its value;
- what SPCR decodes to after each routine: enabled, role, prescaler, interrupt;
- which bytes each transfer routine drives onto the wire, and in what order;
- which buffer cells each receive routine writes, and with which peer bytes;
- how the 100-byte circular receive buffer evolves under the SPI interrupt
  handler and `spi_flush`.

## How the hardware is represented

- **AVR SPI unit** (`AvrPeripheral.AvrSpiPort`): `ddr`, `port` and `spcr` are
  `bv8` fields. Writing SPDR and spinning on SPIF is one atomic `Exchange`. It
  appends the byte written to the wire log `sent` and returns the next byte of
  the other side's script `peer`. A slave that only waits for SPIF and reads
  SPDR uses `Await`, which consumes a peer byte and drives nothing.
- **Tiva SSI module** (`TivaSsi.SsiPort`): `SSIEnable` adds the base to
  `enabled`. `SSIDataPut` appends a 32-bit word to `pushed`. `SSIDataGet`
  returns the next word of the receive script `rx`.
- **Driver globals**: each C file's globals are the fields of a class.
  `SpiAtmega` holds `mode`, `receiveBuffer` and `bufferCursor`. `SpiTiva`
  holds `ssiBase` and `mode`. `atmega_spi.c` has no globals, so its routines
  are module-level methods that take the SPI unit as a parameter.
- **Interrupt buffer**: `ReceiveRing` models the buffer as a value: 100 cells
  plus a cursor. `Replay(events)` is the state after a flush followed by one
  interrupt per byte. `SpiAtmega.Valid()` ties the real array and cursor to
  `Replay` of the ghost log `events` of bytes stored since the last flush.

Bit positions are the ATmega328P datasheet's: SPE=6, MSTR=4, SPR1=1, SPR0=0,
SPIE=7, DORD=5, CPOL=3 and CPHA=2. The pins are MOSI=3, MISO=4 and SCK=5, as
both AVR drivers define them.

### Behaviour of the code worth noting

- `spi_slave_open` and `spi_slave_initialize` leave the SCK direction bit as
  it was. After a master open followed by a slave open, that DDRB bit is
  still 1 (`SlaveAfterMasterKeepsClockOutput`). In slave mode the SPI unit
  itself drives the SCK pin as an input, so this concerns the register bit
  only. Slave then master leaves all three SPI direction bits exactly as a
  master needs them (`MasterAfterSlaveDirections`).
- Every SPCR value the AVR routines write has CPOL, CPHA and DORD clear. So
  master and slave always agree on SPI mode 0 with the most significant bit
  first. No routine offers another data mode, another bit order, or a
  clock-divider table; the only prescale setting is the fixed SPR bits.
- The AVR and Tiva slave receive routines never write SPDR or push to the
  FIFO; they only wait and read.
- Neither AVR open routine sets SPIE (SPCR bit 7), and both overwrite SPCR
  whole. So the interrupt handler that feeds `receiveBuffer` can only run if
  the caller sets SPIE after opening. The contracts of `MasterControl` and
  `SlaveOpenControl` record that SPIE is clear.

## Model

| member | source | states |
|---|---|---|
| `AvrRegisters.ConfiguredIsExact` | src/spi_atmega.c:35-37 | The bit-level contract of a read-modify-write (these bits set, those cleared, the rest kept) allows exactly one register value, so the open contracts are bit-exact. |
| `AvrRegisters.MasterControl` | src/spi_atmega.c:40 | The SPCR value both master routines write decodes to: SPI enabled, master role, prescaler 64 (the "Prescale = 64" of the source), SPI mode 0 with MSB first (CPOL, CPHA, DORD clear), SPIE clear. |
| `AvrRegisters.SlaveOpenControl` | src/spi_atmega.c:49 | The SPCR value `spi_slave_open` writes: enabled, slave role (MSTR clear), mode 0 with MSB first, SPIE clear, no bit other than SPE set. |
| `AvrRegisters.SlaveInitControl` | atmega_spi.c:21 | The SPCR value `spi_slave_initialize` writes: enabled, slave role, mode 0 with MSB first, SPIE clear, SPR1:SPR0 = 11 (divider 128, which a slave does not use). |
| `AvrRegisters.Prescaler` | src/spi_atmega.c:40 | Decodes SPR1:SPR0 into the master's SCK divider; the result is always one of 4, 16, 64 or 128 (SPI2X left at 0, since no routine writes SPSR). |
| `AvrRegisters.MasterAfterSlaveDirections` | src/spi_atmega.c:33-50 | Slave open followed by master open leaves SCK and MOSI outputs and MISO an input, whatever the DDR held before, with the non-SPI bits kept. |
| `AvrRegisters.SlaveAfterMasterKeepsClockOutput` | src/spi_atmega.c:44-47 | Master open followed by slave open leaves the SCK direction bit at 1: the slave routine does not clear it. |
| `SpiCommon.ReceiveTranscript` | src/spi_atmega.c:89-107 | The bytes a receive of `n` bytes drives onto the wire: `n` copies of 0xFF for a master, nothing for a slave. |
| `AvrPeripheral.AvrSpiPort.Exchange` | src/spi_atmega.c:61-67 | Writing SPDR and waiting for SPIF appends the byte to the wire log, completes exactly one transfer and returns the peer's next byte. |
| `AvrPeripheral.AvrSpiPort.Await` | src/spi_atmega.c:94-99 | Waiting for SPIF and reading SPDR completes exactly one transfer, returns the peer's next byte and drives nothing. |
| `ReceiveRing.Flushed` | src/spi_atmega.c:136-139 | After a flush every one of the 100 cells is zero and the cursor is 0. |
| `ReceiveRing.Store` | src/spi_atmega.c:142-146 | One interrupt stores the byte at the old cursor, leaves every other cell unchanged and moves the cursor to (old + 1) mod 100, so it stays in [0, 100). |
| `ReceiveRing.Replay` | src/spi_atmega.c:136-146 | A flush followed by any sequence of interrupts leaves exactly 100 cells and a cursor below 100. |
| `ReceiveRing.ReplayKeepsLastEvents` | src/spi_atmega.c:142-146 | After a flush and `k` interrupts the cursor is `k mod 100`. Each of the last (up to) 100 bytes sits at its arrival index mod 100, and cells not yet reached are zero. |
| `ReceiveRing.ReplayCell` | src/spi_atmega.c:142-146 | Each cell holds the newest byte whose arrival index is congruent to it mod 100, or zero if no byte has reached it: silent overwrite of the oldest data. |
| `ReceiveRing.OverflowOverwritesOldest` | src/spi_atmega.c:142-146 | 103 interrupts carrying 0..102 after a flush: cells 0..2 hold 100..102, cells 3..99 hold 3..99, and the cursor is 3. |
| `SpiAtmegaDriver.SpiAtmega.constructor` | src/spi_atmega.c:16-18 | The zero-initialised globals satisfy the buffer invariant with no bytes received and the cursor at 0. |
| `SpiAtmegaDriver.SpiAtmega.MasterOpen` | src/spi_atmega.c:33-41 | Records `mode == Master`. In DDR it sets SCK and MOSI, clears MISO and keeps every other bit. In PORT it sets MISO only. SPCR becomes `MasterControl`. |
| `SpiAtmegaDriver.SpiAtmega.SlaveOpen` | src/spi_atmega.c:44-50 | Records `mode == Slave`. In DDR it sets MISO, clears MOSI and keeps every other bit, SCK included. In PORT it sets MOSI only. SPCR becomes exactly SPE. |
| `SpiAtmegaDriver.SpiAtmega.Open` | src/spi_atmega.c:53-58 | Ends with `mode == m`. It has the master open's effect exactly when `m` is Master (SPCR equals `MasterControl` iff `m == Master`), and the slave open's effect otherwise. |
| `SpiAtmegaDriver.SpiAtmega.TransmitByte` | src/spi_atmega.c:61-67 | One transfer: the byte is appended to the wire log and the peer's next byte is returned. |
| `SpiAtmegaDriver.SpiAtmega.TransmitBuffer` | src/spi_atmega.c:70-76 | Exactly `len` transfers. The wire log grows by `data[0..len)` in index order, and the buffer is not modified. |
| `SpiAtmegaDriver.SpiAtmega.Write` | src/spi_atmega.c:79-81 | One transfer of the byte, appended to the wire log. |
| `SpiAtmegaDriver.SpiAtmega.WriteBuffer` | src/spi_atmega.c:84-86 | Same effect as `TransmitBuffer`: `data[0..len)` go out in order and the buffer is unchanged. |
| `SpiAtmegaDriver.SpiAtmega.MasterReceiveByte` | src/spi_atmega.c:89-91 | Exactly the byte 0xFF goes out, and the peer's next byte is returned. |
| `SpiAtmegaDriver.SpiAtmega.SlaveReceiveByte` | src/spi_atmega.c:94-99 | Nothing goes out; one transfer completes and the peer's next byte is returned. |
| `SpiAtmegaDriver.SpiAtmega.Read` | src/spi_atmega.c:102-107 | Takes the master path (0xFF on the wire) iff `mode == Master`, the silent slave path otherwise. Returns the peer's next byte. |
| `SpiAtmegaDriver.SpiAtmega.MasterReceiveBuffer` | src/spi_atmega.c:110-116 | `data[0..n)` get the next `n` peer bytes in order, cells from `n` on are untouched, and exactly `n` bytes 0xFF go out. |
| `SpiAtmegaDriver.SpiAtmega.SlaveReceiveBuffer` | src/spi_atmega.c:119-125 | `data[0..n)` get the next `n` peer bytes in order, cells from `n` on are untouched, and nothing goes out. |
| `SpiAtmegaDriver.SpiAtmega.ReadBuffer` | src/spi_atmega.c:128-133 | Fills `data[0..len)` with consecutive peer bytes and nothing beyond. It drives 0xFF per byte iff `mode == Master`, nothing otherwise. |
| `SpiAtmegaDriver.SpiAtmega.Flush` | src/spi_atmega.c:136-139 | All 100 cells become zero, the cursor becomes 0, and the received-since-flush log is empty. |
| `SpiAtmegaDriver.SpiAtmega.Isr` | src/spi_atmega.c:142-146 | Stores the byte just received at the old cursor and changes no other cell. The cursor becomes (old + 1) mod 100, and the buffer invariant is kept. |
| `SpiAtmegaDriver.CursorCountsInterrupts` | src/spi_atmega.c:136-146 | In any valid driver state the cursor equals the number of interrupts since the last flush, mod 100. |
| `SpiAtmegaDriver.BufferHoldsNewestBytes` | src/spi_atmega.c:136-146 | In any valid driver state the buffer holds the newest (up to) 100 bytes received since the last flush, at their arrival index mod 100. Cells not yet reached are zero. |
| `AtmegaSpiLib.MasterInitialize` | atmega_spi.c:7-14 | In DDR it sets SCK and MOSI, clears MISO and keeps the other bits. In PORT it sets the MISO pull-up only. SPCR becomes `MasterControl` (enabled, master, divider 64). |
| `AtmegaSpiLib.SlaveInitialize` | atmega_spi.c:17-22 | In DDR it sets MISO, clears MOSI and keeps the other bits. In PORT it sets MOSI only. SPCR becomes SPE, SPR0 and SPR1, so MSTR is clear. |
| `AtmegaSpiLib.MasterTransmitByte` | atmega_spi.c:32-40 | One transfer: the byte is appended to the wire log and the peer's next byte is returned. |
| `AtmegaSpiLib.MasterTransmitBuffer` | atmega_spi.c:25-29 | Exactly `n` (at most 255) transfers of `buffer[0..n)` in order, and the buffer is unchanged. |
| `AtmegaSpiLib.MasterReceiveByte` | atmega_spi.c:43-45 | Exactly 0xFF goes out and the peer's next byte is returned. |
| `AtmegaSpiLib.MasterReceiveBuffer` | atmega_spi.c:48-52 | `buffer[0..n)` get `n` consecutive peer bytes from `n` exchanges of 0xFF. Nothing past `n` is written. |
| `AtmegaSpiLib.SlaveReceiveByte` | atmega_spi.c:62-67 | Nothing goes out; the peer's next byte is returned. |
| `AtmegaSpiLib.SlaveReceiveBuffer` | atmega_spi.c:55-59 | `buffer[0..n)` get `n` consecutive peer bytes without transmitting. Nothing past `n` is written. |
| `TivaSsi.Low8` | src/spi_tiva.c:36-39 | The `uint8_t` result of a FIFO word is the byte that agrees with the word in its low 8 bits. |
| `TivaSsi.Extend` | src/spi_tiva.c:31 | A byte passed as a `uint32_t` word is below 0x100 and truncates back to itself. |
| `TivaSsi.Widen` | src/spi_tiva.c:62-67 | A byte buffer pushed word by word: same length, each word below 0x100 and truncating back to its byte. |
| `TivaSsi.Narrow` | src/spi_tiva.c:81-86 | FIFO words returned as bytes: same length, and each byte agrees with its word in the low 8 bits. |
| `TivaSsi.NarrowWiden` | src/spi_tiva.c:30-40 | Pushing bytes as words and truncating them back gives the original bytes. |
| `TivaSsi.SsiPort.Enable` | src/spi_tiva.c:26 | `SSIEnable` adds the base to the set of enabled modules. |
| `TivaSsi.SsiPort.DataPut` | src/spi_tiva.c:31 | `SSIDataPut` appends exactly one word to the transmit log. |
| `TivaSsi.SsiPort.DataGet` | src/spi_tiva.c:37 | `SSIDataGet` pops exactly one word, the next one of the receive script. |
| `SpiTivaDriver.SpiTiva.constructor` | src/spi_tiva.c:15-16 | The zero-initialised statics: `ssiBase` is 0 and `mode` is the role the enumeration's zero value stands for. |
| `SpiTivaDriver.SpiTiva.Open` | src/spi_tiva.c:22-27 | Records `ssiBase == base` and `mode == m`, and enables that base. |
| `SpiTivaDriver.SpiTiva.TransmitByte` | src/spi_tiva.c:30-40 | Pushes the byte (zero-extended), pops exactly one word, and returns that word's low 8 bits. |
| `SpiTivaDriver.SpiTiva.MasterReceiveByte` | src/spi_tiva.c:43-45 | Pushes exactly 0xFF, pops one word and returns its low byte. |
| `SpiTivaDriver.SpiTiva.SlaveReceiveByte` | src/spi_tiva.c:48-54 | Pops exactly one word and returns its low byte. Nothing is pushed. |
| `SpiTivaDriver.SpiTiva.Send` | src/spi_tiva.c:57-59 | One transfer of the byte: pushed once, one word popped and discarded. |
| `SpiTivaDriver.SpiTiva.SendBuffer` | src/spi_tiva.c:62-68 | Pushes exactly `buffer[0..len)` in index order, pops `len` words, and leaves the buffer unchanged. |
| `SpiTivaDriver.SpiTiva.Receive` | src/spi_tiva.c:71-78 | Takes the master path (0xFF pushed) iff `mode == Master`, the pop-only slave path otherwise. |
| `SpiTivaDriver.SpiTiva.ReceiveBuffer` | src/spi_tiva.c:81-87 | `buffer[i]` is the low byte of the i-th word popped, for `i < len`. Nothing past `len` is written. `len` bytes 0xFF are pushed iff `mode == Master`. |

## Left out

- The SPIF and `SSIBusy` busy-waits are not modelled as loops. Each transfer
  is one atomic step that always completes, and the peer is an unbounded
  script. A peer that never clocks a byte would make the real driver block
  forever; the model does not capture that.
- Interrupt preemption and `volatile`. The handler is an ordinary method
  called between other operations, so a race between it and `spi_flush` or a
  reader is not represented.
- Bytes a slave shifts out. The model's slave receive drives nothing, and the
  stale SPDR content the master reads back is not represented.
- The TivaWare functions `SSIEnable`, `SSIDataPut`, `SSIDataGet` and
  `SSIBusy` are foreign code. They are reduced to an enabled-set plus one
  transmit log and one receive script. `ssiBase` is recorded and enabled but
  does not route words to separate modules.
- The register addresses from `<avr/io.h>` and the `__AVR_ATmega328P__`
  guard are toolchain plumbing. Bit positions are constants.
- `libspi.h` and `include/spi.h` hold declarations only.
  `include/spi.h` as shown does not declare the `SPI_MODE` and
  `SPI_DEVICEMODE` enumerations. Which role their zero value stands for is
  therefore a constructor parameter.
- SPSR, and with it SPI2X, is never written by the drivers. `Prescaler`
  assumes its reset value 0.
- No source file implements a clock-divider table or a choice of data mode
  or bit order. The fixed mode 0, MSB-first setting of every SPCR write is
  modelled.
