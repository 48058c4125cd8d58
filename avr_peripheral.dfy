/**
 * The ATmega SPI unit as the drivers see it: the port B direction and pull-up
 * registers, SPCR, and the data register SPDR together with the SPIF busy-wait.
 *
 * Writing SPDR and spinning on SPIF until the byte has been shifted is one
 * atomic `Exchange`: the byte written is appended to `sent`, the wire log of
 * what this device drove out, and the byte shifted in is the next one of the
 * other side's script `peer`. Spinning on SPIF without writing SPDR and then
 * reading it is `Await`: it takes the next peer byte and drives nothing.
 */
module AvrPeripheral {

  class AvrSpiPort {
    /** DDRB: 1 = output. */
    var ddr: bv8
    /** PORTB: on an input pin, 1 = pull-up on. */
    var port: bv8
    /** SPI control register. */
    var spcr: bv8

    /** Every byte this device has written to SPDR, oldest first. */
    var sent: seq<bv8>
    /** The byte the other side shifts in on the k-th completed transfer. */
    const peer: nat -> bv8
    /** How many transfers have completed. */
    var taken: nat

    constructor (ddr0: bv8, port0: bv8, spcr0: bv8, peer: nat -> bv8)
      ensures ddr == ddr0 && port == port0 && spcr == spcr0
      ensures this.peer == peer && sent == [] && taken == 0
    {
      ddr, port, spcr := ddr0, port0, spcr0;
      this.peer := peer;
      sent, taken := [], 0;
    }

    /** Write SPDR, wait until SPIF reports the transfer complete, read SPDR. */
    method Exchange(out: bv8) returns (inb: bv8)
      modifies this`sent, this`taken
      ensures sent == old(sent) + [out]
      ensures taken == old(taken) + 1
      ensures inb == peer(old(taken))
    {
      sent := sent + [out];
      inb := peer(taken);
      taken := taken + 1;
    }

    /** Wait until SPIF reports a master-driven transfer complete, read SPDR. */
    method Await() returns (inb: bv8)
      modifies this`taken
      ensures taken == old(taken) + 1
      ensures inb == peer(old(taken))
    {
      inb := peer(taken);
      taken := taken + 1;
    }
  }
}
