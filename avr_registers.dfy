/**
 * The ATmega328P registers the AVR drivers touch, as 8-bit values.
 *
 * The pin numbers are the ones the drivers define for port B; the SPCR and
 * SPSR bit positions are the datasheet's (they come from <avr/io.h> in the
 * original build); the SPSR flag SPIF that the drivers busy-wait on is not
 * modelled as a register. Register writes are described relationally: which bits a
 * read-modify-write forces to 1, which it forces to 0, and that every other
 * bit keeps its old value.
 */
module AvrRegisters {
  import opened SpiCommon

  // Port B pins wired to the SPI unit.
  const MOSI: nat := 3
  const MISO: nat := 4
  const SCK: nat := 5

  // SPCR bits.
  const SPR0: nat := 0
  const SPR1: nat := 1
  const CPHA: nat := 2
  const CPOL: nat := 3
  const MSTR: nat := 4
  const DORD: nat := 5
  const SPE: nat := 6
  const SPIE: nat := 7

  /** `1 << k` as an 8-bit mask. */
  function Bit(k: nat): bv8
    requires k < 8
  {
    (1 as bv8) << k
  }

  /** Bit `k` of register value `r` is 1. */
  predicate IsSet(r: bv8, k: nat)
    requires k < 8
  {
    r & Bit(k) != 0
  }

  /**
   * `after` is `before` with every bit of `setMask` forced to 1, every bit of
   * `clearMask` forced to 0, and every other bit unchanged.
   */
  predicate Configured(before: bv8, after: bv8, setMask: bv8, clearMask: bv8)
  {
    && after & setMask == setMask
    && after & clearMask == 0
    && after & !(setMask | clearMask) == before & !(setMask | clearMask)
  }

  /** A read-modify-write spec pins the new register value down completely. */
  lemma ConfiguredIsExact(before: bv8, a1: bv8, a2: bv8, setMask: bv8, clearMask: bv8)
    requires setMask & clearMask == 0
    requires Configured(before, a1, setMask, clearMask)
    requires Configured(before, a2, setMask, clearMask)
    ensures a1 == a2
  {
  }

  // Direction (DDRB) and pull-up (PORTB) effects of the two roles.

  /** Master: SCK and MOSI become outputs, MISO an input. */
  const MasterOutputs: bv8 := Bit(SCK) | Bit(MOSI)
  const MasterInputs: bv8 := Bit(MISO)
  /** Master: pull-up on the MISO input. */
  const MasterPullUps: bv8 := Bit(MISO)

  /** Slave: MISO becomes an output, MOSI an input; SCK is left as it was. */
  const SlaveOutputs: bv8 := Bit(MISO)
  const SlaveInputs: bv8 := Bit(MOSI)
  /** Slave: pull-up on the MOSI input. */
  const SlavePullUps: bv8 := Bit(MOSI)

  /** The SPI unit is switched on. */
  predicate Enabled(spcr: bv8) { IsSet(spcr, SPE) }

  /**
   * SPI data mode 0 (clock idles low, data sampled on the leading edge) with
   * the most significant bit first: CPOL, CPHA and DORD all clear. Master and
   * slave on one bus must agree on these.
   */
  predicate Mode0MsbFirst(spcr: bv8)
  {
    !IsSet(spcr, CPOL) && !IsSet(spcr, CPHA) && !IsSet(spcr, DORD)
  }

  /** The SPI transfer-complete interrupt is switched on. */
  predicate InterruptEnabled(spcr: bv8) { IsSet(spcr, SPIE) }

  /** The role the SPI unit runs in, from the MSTR bit. */
  function RoleOf(spcr: bv8): Role
  {
    if IsSet(spcr, MSTR) then Master else Slave
  }

  /**
   * The SCK divider a master uses, from SPR1:SPR0 with SPI2X (in SPSR) at
   * its reset value 0; the drivers never write SPSR.
   */
  function Prescaler(spcr: bv8): (d: nat)
    ensures d == 4 || d == 16 || d == 64 || d == 128
  {
    match (IsSet(spcr, SPR1), IsSet(spcr, SPR0))
    case (false, false) => 4
    case (false, true) => 16
    case (true, false) => 64
    case (true, true) => 128
  }

  /** SPCR as both AVR master routines write it: enabled, master, f/64, mode 0, MSB first, no interrupt. */
  function MasterControl(): (c: bv8)
    ensures Enabled(c) && RoleOf(c) == Master && Prescaler(c) == 64
    ensures !InterruptEnabled(c) && Mode0MsbFirst(c)
  {
    Bit(SPE) | Bit(MSTR) | Bit(SPR1)
  }

  /** SPCR as `spi_slave_open` writes it: enabled, slave, mode 0, MSB first, no interrupt. */
  function SlaveOpenControl(): (c: bv8)
    ensures Enabled(c) && RoleOf(c) == Slave && !InterruptEnabled(c)
    ensures Mode0MsbFirst(c)
    ensures c & !Bit(SPE) == 0
  {
    Bit(SPE)
  }

  /** SPCR as `spi_slave_initialize` writes it: enabled, slave, mode 0, MSB first, SPR bits both set. */
  function SlaveInitControl(): (c: bv8)
    ensures Enabled(c) && RoleOf(c) == Slave && !InterruptEnabled(c)
    ensures Mode0MsbFirst(c) && Prescaler(c) == 128
  {
    Bit(SPE) | Bit(SPR0) | Bit(SPR1)
  }

  /**
   * Opening as slave and then as master leaves the three SPI pin directions
   * exactly as a master needs them, whatever the directions were before.
   */
  lemma MasterAfterSlaveDirections(d0: bv8, d1: bv8, d2: bv8)
    requires Configured(d0, d1, SlaveOutputs, SlaveInputs)
    requires Configured(d1, d2, MasterOutputs, MasterInputs)
    ensures IsSet(d2, SCK) && IsSet(d2, MOSI) && !IsSet(d2, MISO)
    ensures d2 & !(MasterOutputs | MasterInputs) == d0 & !(MasterOutputs | MasterInputs)
  {
  }

  /**
   * Opening as master and then as slave leaves the SCK direction bit at 1:
   * the slave routines do not touch it. (In slave mode the SPI unit itself
   * makes the SCK pin an input whatever this bit holds.)
   */
  lemma SlaveAfterMasterKeepsClockOutput(d0: bv8, d1: bv8, d2: bv8)
    requires Configured(d0, d1, MasterOutputs, MasterInputs)
    requires Configured(d1, d2, SlaveOutputs, SlaveInputs)
    ensures IsSet(d2, SCK) && IsSet(d2, MISO) && !IsSet(d2, MOSI)
  {
  }
}
