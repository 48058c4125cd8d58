/**
 * The TivaWare SSI peripheral as the Tiva driver uses it, reduced to what the
 * driver can observe: which module bases have been enabled, the 32-bit words
 * pushed into the transmit FIFO, and the words the receive FIFO yields.
 * `SSIDataGet` blocks until a word is there; here every pop succeeds and
 * yields the next word of the other side's script `rx`.
 */
module TivaSsi {

  /**
   * A 32-bit FIFO word returned through a `uint8_t` result: C keeps the value
   * modulo 2^8, that is, the byte that agrees with the word in its low 8 bits.
   */
  function Low8(w: bv32): (b: bv8)
    ensures (w ^ (b as bv32)) & 0xFF == 0
  {
    (w % 0x100) as bv8
  }

  /** A byte passed where the SSI driver takes a `uint32_t` word: zero-extended. */
  function Extend(b: bv8): (w: bv32)
    ensures w < 0x100 && Low8(w) == b
  {
    b as bv32
  }

  /** Bytes passed one by one as words. */
  function Widen(s: seq<bv8>): (ws: seq<bv32>)
    ensures |ws| == |s|
    ensures forall i | 0 <= i < |s| :: ws[i] < 0x100 && Low8(ws[i]) == s[i]
  {
    seq(|s|, i requires 0 <= i < |s| => Extend(s[i]))
  }

  /** FIFO words handed back as `uint8_t`, one by one. */
  function Narrow(ws: seq<bv32>): (s: seq<bv8>)
    ensures |s| == |ws|
    ensures forall i | 0 <= i < |ws| :: (ws[i] ^ Extend(s[i])) & 0xFF == 0
  {
    seq(|ws|, i requires 0 <= i < |ws| => Low8(ws[i]))
  }

  /** A byte pushed as a word and read back as a byte is unchanged. */
  lemma NarrowWiden(s: seq<bv8>)
    ensures Narrow(Widen(s)) == s
  {
  }

  /** Widening distributes over concatenation. */
  lemma WidenAppend(a: seq<bv8>, b: seq<bv8>)
    ensures Widen(a + b) == Widen(a) + Widen(b)
  {
  }

  /** Narrowing distributes over concatenation. */
  lemma NarrowAppend(a: seq<bv32>, b: seq<bv32>)
    ensures Narrow(a + b) == Narrow(a) + Narrow(b)
  {
  }

  class SsiPort {
    /** Base addresses passed to `SSIEnable`. */
    var enabled: set<bv32>
    /** Every word passed to `SSIDataPut`, oldest first. */
    var pushed: seq<bv32>
    /** The word the receive FIFO yields on the k-th `SSIDataGet`. */
    const rx: nat -> bv32
    /** How many words `SSIDataGet` has returned. */
    var popped: nat

    constructor (rx: nat -> bv32)
      ensures enabled == {} && pushed == [] && this.rx == rx && popped == 0
    {
      enabled, pushed := {}, [];
      this.rx := rx;
      popped := 0;
    }

    /** `SSIEnable(base)` */
    method Enable(base: bv32)
      modifies this`enabled
      ensures enabled == old(enabled) + {base}
    {
      enabled := enabled + {base};
    }

    /** `SSIDataPut`: push one word into the transmit FIFO. */
    method DataPut(w: bv32)
      modifies this`pushed
      ensures pushed == old(pushed) + [w]
    {
      pushed := pushed + [w];
    }

    /** `SSIDataGet`: pop the next word of the receive FIFO. */
    method DataGet() returns (w: bv32)
      modifies this`popped
      ensures popped == old(popped) + 1
      ensures w == rx(old(popped))
    {
      w := rx(popped);
      popped := popped + 1;
    }
  }
}
