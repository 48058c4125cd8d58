/**
 * The AVR driver with a global role and an interrupt-fed receive buffer
 * (src/spi_atmega.c). Its globals `mode`, `receiveBuffer` and `bufferCursor`
 * are the fields of `SpiAtmega`; the SPI unit is the port object `hw`.
 */
module SpiAtmegaDriver {
  import opened SpiCommon
  import opened AvrRegisters
  import opened AvrPeripheral
  import opened ReceiveRing

  class SpiAtmega {
    const hw: AvrSpiPort
    /** The role recorded by the last open. */
    var mode: Role
    /** BUFFERSIZE bytes written by the interrupt handler. */
    const receiveBuffer: array<bv8>
    /** Where the interrupt handler stores the next byte. */
    var bufferCursor: nat
    /** The bytes the interrupt handler has stored since the buffer was last cleared. */
    ghost var events: seq<bv8>

    /** The buffer and cursor are what a flush followed by `events` leaves. */
    ghost predicate Valid()
      reads this, receiveBuffer
    {
      && receiveBuffer.Length == Capacity
      && bufferCursor < Capacity
      && Ring(receiveBuffer[..], bufferCursor) == Replay(events)
    }

    /**
     * The globals of a freshly loaded program: buffer and cursor zeroed; the
     * role is whatever `mode0` the zero enumerator stands for.
     */
    constructor (hw: AvrSpiPort, mode0: Role)
      ensures Valid() && fresh(receiveBuffer)
      ensures this.hw == hw && mode == mode0 && bufferCursor == 0 && events == []
    {
      this.hw := hw;
      mode := mode0;
      receiveBuffer := new bv8[Capacity](_ => 0);
      bufferCursor := 0;
      events := [];
      new;
      assert receiveBuffer[..] == Flushed().cells;
    }

    /** `spi_master_open` */
    method MasterOpen()
      modifies this`mode, hw`ddr, hw`port, hw`spcr
      ensures mode == Master
      ensures Configured(old(hw.ddr), hw.ddr, MasterOutputs, MasterInputs)
      ensures Configured(old(hw.port), hw.port, MasterPullUps, 0)
      ensures hw.spcr == MasterControl()
    {
      mode := Master;
      hw.ddr := hw.ddr | Bit(SCK) | Bit(MOSI);
      hw.ddr := hw.ddr & !Bit(MISO);
      hw.port := hw.port | Bit(MISO);
      hw.spcr := Bit(SPE) | Bit(MSTR) | Bit(SPR1);
    }

    /** `spi_slave_open`: the SCK direction bit is left as it was. */
    method SlaveOpen()
      modifies this`mode, hw`ddr, hw`port, hw`spcr
      ensures mode == Slave
      ensures Configured(old(hw.ddr), hw.ddr, SlaveOutputs, SlaveInputs)
      ensures Configured(old(hw.port), hw.port, SlavePullUps, 0)
      ensures hw.spcr == SlaveOpenControl()
    {
      mode := Slave;
      hw.ddr := hw.ddr | Bit(MISO);
      hw.ddr := hw.ddr & !Bit(MOSI);
      hw.port := hw.port | Bit(MOSI);
      hw.spcr := Bit(SPE);
    }

    /** `spi_open`: the master set-up exactly when `m` is Master, the slave one otherwise. */
    method Open(m: Role)
      modifies this`mode, hw`ddr, hw`port, hw`spcr
      ensures mode == m
      ensures m == Master <==> hw.spcr == MasterControl()
      ensures m == Master ==> Configured(old(hw.ddr), hw.ddr, MasterOutputs, MasterInputs)
      ensures m == Master ==> Configured(old(hw.port), hw.port, MasterPullUps, 0)
      ensures m == Slave ==> Configured(old(hw.ddr), hw.ddr, SlaveOutputs, SlaveInputs)
      ensures m == Slave ==> Configured(old(hw.port), hw.port, SlavePullUps, 0)
      ensures m == Slave ==> hw.spcr == SlaveOpenControl()
    {
      if m == Master {
        MasterOpen();
      } else {
        SlaveOpen();
      }
    }

    /** `spi_transmit_byte`: one full-duplex transfer. */
    method TransmitByte(data: bv8) returns (r: bv8)
      modifies hw`sent, hw`taken
      ensures hw.sent == old(hw.sent) + [data]
      ensures hw.taken == old(hw.taken) + 1
      ensures r == hw.peer(old(hw.taken))
    {
      r := hw.Exchange(data);
    }

    /** `spi_transmit_buffer`: `len` transfers of `data[0]`, ..., `data[len - 1]`, in that order. */
    method TransmitBuffer(data: array<bv8>, len: Len16)
      requires len <= data.Length
      modifies hw`sent, hw`taken
      ensures hw.sent == old(hw.sent) + data[..len]
      ensures hw.taken == old(hw.taken) + len
      ensures unchanged(data)
    {
      var i := 0;
      while i < len
        invariant 0 <= i <= len
        invariant hw.sent == old(hw.sent) + data[..i]
        invariant hw.taken == old(hw.taken) + i
      {
        var _ := TransmitByte(data[i]);
        assert data[..i + 1] == data[..i] + [data[i]];
        i := i + 1;
      }
    }

    /** `spi_write` */
    method Write(data: bv8)
      modifies hw`sent, hw`taken
      ensures hw.sent == old(hw.sent) + [data]
      ensures hw.taken == old(hw.taken) + 1
    {
      var _ := TransmitByte(data);
    }

    /** `spi_writeBuffer` */
    method WriteBuffer(data: array<bv8>, len: Len16)
      requires len <= data.Length
      modifies hw`sent, hw`taken
      ensures hw.sent == old(hw.sent) + data[..len]
      ensures hw.taken == old(hw.taken) + len
      ensures unchanged(data)
    {
      TransmitBuffer(data, len);
    }

    /** `spi_master_receive_byte`: clock one byte in by sending 0xFF. */
    method MasterReceiveByte() returns (r: bv8)
      modifies hw`sent, hw`taken
      ensures hw.sent == old(hw.sent) + ReceiveTranscript(Master, 1)
      ensures hw.taken == old(hw.taken) + 1
      ensures r == hw.peer(old(hw.taken))
    {
      r := TransmitByte(Dummy);
    }

    /** `spi_slave_receive_byte`: wait for the master's transfer, send nothing. */
    method SlaveReceiveByte() returns (r: bv8)
      modifies hw`taken
      ensures hw.sent == old(hw.sent)
      ensures hw.taken == old(hw.taken) + 1
      ensures r == hw.peer(old(hw.taken))
    {
      r := hw.Await();
    }

    /** `spi_read`: the receive path of the recorded role. */
    method Read() returns (r: bv8)
      modifies hw`sent, hw`taken
      ensures hw.sent == old(hw.sent) + ReceiveTranscript(mode, 1)
      ensures hw.taken == old(hw.taken) + 1
      ensures r == hw.peer(old(hw.taken))
    {
      if mode == Master {
        r := MasterReceiveByte();
      } else {
        r := SlaveReceiveByte();
      }
    }

    /** `spi_master_receive_buffer`: `data[i]` is the i-th byte clocked in with 0xFF. */
    method MasterReceiveBuffer(data: array<bv8>, n: Len16)
      requires n <= data.Length
      modifies hw`sent, hw`taken, data
      ensures data[..n] == Window(hw.peer, old(hw.taken), n)
      ensures data[n..] == old(data[n..])
      ensures hw.sent == old(hw.sent) + ReceiveTranscript(Master, n)
      ensures hw.taken == old(hw.taken) + n
    {
      var i := 0;
      while i < n
        invariant 0 <= i <= n
        invariant data[..i] == Window(hw.peer, old(hw.taken), i)
        invariant data[n..] == old(data[n..])
        invariant hw.sent == old(hw.sent) + ReceiveTranscript(Master, i)
        invariant hw.taken == old(hw.taken) + i
      {
        WindowSplit(hw.peer, old(hw.taken), i);
        assert ReceiveTranscript(Master, i + 1) == ReceiveTranscript(Master, i) + [Dummy];
        data[i] := MasterReceiveByte();
        assert data[..i + 1] == data[..i] + [data[i]];
        i := i + 1;
      }
    }

    /** `spi_slave_receive_buffer`: `data[i]` is the i-th byte the master sends; nothing is driven. */
    method SlaveReceiveBuffer(data: array<bv8>, n: Len16)
      requires n <= data.Length
      modifies hw`taken, data
      ensures data[..n] == Window(hw.peer, old(hw.taken), n)
      ensures data[n..] == old(data[n..])
      ensures hw.sent == old(hw.sent)
      ensures hw.taken == old(hw.taken) + n
    {
      var i := 0;
      while i < n
        invariant 0 <= i <= n
        invariant data[..i] == Window(hw.peer, old(hw.taken), i)
        invariant data[n..] == old(data[n..])
        invariant hw.taken == old(hw.taken) + i
      {
        WindowSplit(hw.peer, old(hw.taken), i);
        data[i] := SlaveReceiveByte();
        assert data[..i + 1] == data[..i] + [data[i]];
        i := i + 1;
      }
    }

    /** `spi_readBuffer`: the buffered receive path of the recorded role. */
    method ReadBuffer(data: array<bv8>, len: Len16)
      requires len <= data.Length
      modifies hw`sent, hw`taken, data
      ensures data[..len] == Window(hw.peer, old(hw.taken), len)
      ensures data[len..] == old(data[len..])
      ensures hw.sent == old(hw.sent) + ReceiveTranscript(mode, len)
      ensures hw.taken == old(hw.taken) + len
    {
      if mode == Master {
        MasterReceiveBuffer(data, len);
      } else {
        SlaveReceiveBuffer(data, len);
      }
    }

    /** `spi_flush`: zero every cell and rewind the cursor. */
    method Flush()
      requires receiveBuffer.Length == Capacity
      modifies this`bufferCursor, this`events, receiveBuffer
      ensures Valid() && events == []
      ensures forall i | 0 <= i < Capacity :: receiveBuffer[i] == 0
      ensures bufferCursor == 0
    {
      forall i | 0 <= i < receiveBuffer.Length {
        receiveBuffer[i] := 0;
      }
      bufferCursor := 0;
      events := [];
      assert receiveBuffer[..] == Flushed().cells;
    }

    /**
     * `ISR(SPI_STC_vect)`: store the byte just received at the cursor, advance
     * the cursor and wrap it to 0 at BUFFERSIZE.
     */
    method Isr()
      requires Valid()
      modifies this`bufferCursor, this`events, receiveBuffer, hw`taken
      ensures Valid()
      ensures events == old(events) + [hw.peer(old(hw.taken))]
      ensures hw.taken == old(hw.taken) + 1
      ensures receiveBuffer[..] == old(receiveBuffer[..])[old(bufferCursor) := hw.peer(old(hw.taken))]
      ensures bufferCursor == (old(bufferCursor) + 1) % Capacity
    {
      var b := hw.Await();
      ghost var r := Replay(events);
      receiveBuffer[bufferCursor] := b;
      bufferCursor := bufferCursor + 1;
      if bufferCursor == Capacity {
        bufferCursor := 0;
      }
      events := events + [b];
      assert events[..|events| - 1] == old(events);
      assert Replay(events) == Store(r, b);
    }
  }

  /**
   * Whatever has happened since the last flush, the cursor counts the
   * interrupts modulo BUFFERSIZE.
   */
  lemma CursorCountsInterrupts(d: SpiAtmega)
    requires d.Valid()
    ensures d.bufferCursor == |d.events| % Capacity
  {
    ReplayKeepsLastEvents(d.events);
  }

  /**
   * The buffer holds the newest (up to) BUFFERSIZE bytes received since the
   * last flush, each at its arrival index modulo BUFFERSIZE; cells not yet
   * reached are zero.
   */
  lemma BufferHoldsNewestBytes(d: SpiAtmega)
    requires d.Valid()
    ensures forall j | 0 <= j < |d.events| && |d.events| - Capacity <= j ::
              d.receiveBuffer[j % Capacity] == d.events[j]
    ensures forall i | |d.events| <= i < Capacity :: d.receiveBuffer[i] == 0
  {
    ReplayKeepsLastEvents(d.events);
    assert d.receiveBuffer[..] == Replay(d.events).cells;
  }
}
