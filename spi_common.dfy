/**
 * Types shared by the AVR and Tiva drivers: the device role, the C length
 * types of the buffer routines, and the sequence views used to state what
 * a run of single-byte transfers puts on the wire and reads back.
 */
module SpiCommon {

  /** The device role chosen when the bus is opened (SPI_MODE / SPI_DEVICEMODE). */
  datatype Role = Master | Slave

  /** A `uint8_t` length argument. */
  type Len8 = n: nat | n < 0x100

  /** A `uint16_t` length argument. */
  type Len16 = n: nat | n < 0x1_0000

  /** The byte a master shifts out to clock in one byte it only wants to read. */
  const Dummy: bv8 := 0xFF

  /** The `n` consecutive values of an unbounded script `f`, starting at `start`. */
  function Window<T>(f: nat -> T, start: nat, n: nat): (s: seq<T>)
    ensures |s| == n
    ensures forall i | 0 <= i < n :: s[i] == f(start + i)
  {
    seq(n, i requires 0 <= i => f(start + i))
  }

  /**
   * The bytes a device in role `role` drives onto the wire while it receives
   * `n` bytes: a master clocks each byte in with the dummy 0xFF, a slave
   * only listens.
   */
  function ReceiveTranscript(role: Role, n: nat): (s: seq<bv8>)
    ensures role == Master ==> |s| == n
    ensures role == Slave ==> s == []
    ensures forall i | 0 <= i < |s| :: s[i] == Dummy
  {
    if role == Master then seq(n, _ => Dummy) else []
  }

  /** Two consecutive windows of a script are one longer window. */
  lemma WindowSplit<T>(f: nat -> T, start: nat, n: nat)
    ensures Window(f, start, n) + [f(start + n)] == Window(f, start, n + 1)
  {
  }

  /** Receiving one more byte adds one more role-dependent dummy to the wire. */
  lemma TranscriptStep(role: Role, n: nat)
    ensures ReceiveTranscript(role, n + 1) == ReceiveTranscript(role, n) + ReceiveTranscript(role, 1)
  {
  }
}
