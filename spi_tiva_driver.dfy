/**
 * The Tiva C driver (src/spi_tiva.c): its statics `SSIBase` and `mode` are
 * the fields of `SpiTiva`, and the SSI module is the FIFO object `ssi`.
 */
module SpiTivaDriver {
  import opened SpiCommon
  import opened TivaSsi

  class SpiTiva {
    const ssi: SsiPort
    /** The SSI module base recorded by the last open. */
    var ssiBase: bv32
    /** The role recorded by the last open. */
    var mode: Role

    constructor (ssi: SsiPort, mode0: Role)
      ensures this.ssi == ssi && ssiBase == 0 && mode == mode0
    {
      this.ssi := ssi;
      ssiBase := 0;
      mode := mode0;
    }

    /** `tiva_spi_open`: record the base and role, then enable that module. */
    method Open(base: bv32, m: Role)
      modifies this`ssiBase, this`mode, ssi`enabled
      ensures ssiBase == base && mode == m
      ensures ssi.enabled == old(ssi.enabled) + {base}
    {
      ssiBase := base;
      mode := m;
      ssi.Enable(ssiBase);
    }

    /** `spi_transmit_byte`: push the byte, wait, pop one word and keep its low 8 bits. */
    method TransmitByte(data: bv8) returns (r: bv8)
      modifies ssi`pushed, ssi`popped
      ensures ssi.pushed == old(ssi.pushed) + Widen([data])
      ensures ssi.popped == old(ssi.popped) + 1
      ensures r == Low8(ssi.rx(old(ssi.popped)))
    {
      ssi.DataPut(Extend(data));
      var dump := ssi.DataGet();
      r := Low8(dump);
    }

    /** `spi_master_receive_byte`: clock one byte in by sending 0xFF. */
    method MasterReceiveByte() returns (r: bv8)
      modifies ssi`pushed, ssi`popped
      ensures ssi.pushed == old(ssi.pushed) + Widen(ReceiveTranscript(Master, 1))
      ensures ssi.popped == old(ssi.popped) + 1
      ensures r == Low8(ssi.rx(old(ssi.popped)))
    {
      r := TransmitByte(Dummy);
    }

    /** `spi_slave_receive_byte`: pop one word, push nothing. */
    method SlaveReceiveByte() returns (r: bv8)
      modifies ssi`popped
      ensures ssi.pushed == old(ssi.pushed)
      ensures ssi.popped == old(ssi.popped) + 1
      ensures r == Low8(ssi.rx(old(ssi.popped)))
    {
      var data := ssi.DataGet();
      r := Low8(data);
    }

    /** `spi_send` */
    method Send(data: bv8)
      modifies ssi`pushed, ssi`popped
      ensures ssi.pushed == old(ssi.pushed) + Widen([data])
      ensures ssi.popped == old(ssi.popped) + 1
    {
      var _ := TransmitByte(data);
    }

    /** `spi_sendBuffer`: push `buffer[0..len)` in index order, one transfer each. */
    method SendBuffer(buffer: array<bv8>, len: Len16)
      requires len <= buffer.Length
      modifies ssi`pushed, ssi`popped
      ensures ssi.pushed == old(ssi.pushed) + Widen(buffer[..len])
      ensures ssi.popped == old(ssi.popped) + len
      ensures unchanged(buffer)
    {
      var i := 0;
      while i < len
        invariant 0 <= i <= len
        invariant ssi.pushed == old(ssi.pushed) + Widen(buffer[..i])
        invariant ssi.popped == old(ssi.popped) + i
      {
        assert buffer[..i + 1] == buffer[..i] + [buffer[i]];
        WidenAppend(buffer[..i], [buffer[i]]);
        Send(buffer[i]);
        i := i + 1;
      }
    }

    /** `spi_receive`: the receive path of the recorded role. */
    method Receive() returns (r: bv8)
      modifies ssi`pushed, ssi`popped
      ensures ssi.pushed == old(ssi.pushed) + Widen(ReceiveTranscript(mode, 1))
      ensures ssi.popped == old(ssi.popped) + 1
      ensures r == Low8(ssi.rx(old(ssi.popped)))
    {
      if mode == Master {
        r := MasterReceiveByte();
      } else {
        r := SlaveReceiveByte();
      }
    }

    /** `spi_receiveBuffer`: `buffer[i]` is the result of the i-th `spi_receive`; nothing past `len` is written. */
    method ReceiveBuffer(buffer: array<bv8>, len: Len16)
      requires len <= buffer.Length
      modifies ssi`pushed, ssi`popped, buffer
      ensures buffer[..len] == Narrow(Window(ssi.rx, old(ssi.popped), len))
      ensures buffer[len..] == old(buffer[len..])
      ensures ssi.pushed == old(ssi.pushed) + Widen(ReceiveTranscript(mode, len))
      ensures ssi.popped == old(ssi.popped) + len
    {
      ghost var start, pushed0 := ssi.popped, ssi.pushed;
      var i := 0;
      while i < len
        invariant 0 <= i <= len
        invariant buffer[..i] == Narrow(Window(ssi.rx, start, i))
        invariant buffer[len..] == old(buffer[len..])
        invariant ssi.pushed == pushed0 + Widen(ReceiveTranscript(mode, i))
        invariant ssi.popped == start + i
      {
        ReceiveStep(ssi.rx, start, i, mode);
        var b := Receive();
        buffer[i] := b;
        assert buffer[..i + 1] == buffer[..i] + [b];
        i := i + 1;
      }
    }
  }

  /** What one more `spi_receive` adds to the bytes read and to the words pushed. */
  lemma ReceiveStep(rx: nat -> bv32, start: nat, i: nat, role: Role)
    ensures Narrow(Window(rx, start, i + 1)) == Narrow(Window(rx, start, i)) + [Low8(rx(start + i))]
    ensures Widen(ReceiveTranscript(role, i + 1))
         == Widen(ReceiveTranscript(role, i)) + Widen(ReceiveTranscript(role, 1))
  {
    WindowSplit(rx, start, i);
    NarrowAppend(Window(rx, start, i), [rx(start + i)]);
    TranscriptStep(role, i);
    WidenAppend(ReceiveTranscript(role, i), ReceiveTranscript(role, 1));
  }
}
