/**
 * The stateless ATmega328P driver (atmega_spi.c): every routine works on the
 * SPI unit `hw` directly, lengths are `uint8_t`, and no role is recorded.
 */
module AtmegaSpiLib {
  import opened SpiCommon
  import opened AvrRegisters
  import opened AvrPeripheral

  /** `spi_master_initialize` */
  method MasterInitialize(hw: AvrSpiPort)
    modifies hw`ddr, hw`port, hw`spcr
    ensures Configured(old(hw.ddr), hw.ddr, MasterOutputs, MasterInputs)
    ensures Configured(old(hw.port), hw.port, MasterPullUps, 0)
    ensures hw.spcr == MasterControl()
  {
    hw.ddr := hw.ddr | Bit(SCK) | Bit(MOSI);
    hw.ddr := hw.ddr & !Bit(MISO);
    hw.port := hw.port | Bit(MISO);
    hw.spcr := Bit(SPE) | Bit(MSTR) | Bit(SPR1);
  }

  /** `spi_slave_initialize`: the SCK direction bit is left as it was. */
  method SlaveInitialize(hw: AvrSpiPort)
    modifies hw`ddr, hw`port, hw`spcr
    ensures Configured(old(hw.ddr), hw.ddr, SlaveOutputs, SlaveInputs)
    ensures Configured(old(hw.port), hw.port, SlavePullUps, 0)
    ensures hw.spcr == SlaveInitControl()
  {
    hw.ddr := hw.ddr | Bit(MISO);
    hw.ddr := hw.ddr & !Bit(MOSI);
    hw.port := hw.port | Bit(MOSI);
    hw.spcr := Bit(SPE) | Bit(SPR0) | Bit(SPR1);
  }

  /** `spi_master_transmit_byte`: one full-duplex transfer. */
  method MasterTransmitByte(hw: AvrSpiPort, data: bv8) returns (r: bv8)
    modifies hw`sent, hw`taken
    ensures hw.sent == old(hw.sent) + [data]
    ensures hw.taken == old(hw.taken) + 1
    ensures r == hw.peer(old(hw.taken))
  {
    r := hw.Exchange(data);
  }

  /** `spi_master_transmit_buffer`: `n` (at most 255) transfers of `buffer[0..n)`, in order. */
  method MasterTransmitBuffer(hw: AvrSpiPort, buffer: array<bv8>, n: Len8)
    requires n <= buffer.Length
    modifies hw`sent, hw`taken
    ensures hw.sent == old(hw.sent) + buffer[..n]
    ensures hw.taken == old(hw.taken) + n
    ensures unchanged(buffer)
  {
    var i: Len8 := 0;
    while i < n
      invariant i <= n
      invariant hw.sent == old(hw.sent) + buffer[..i]
      invariant hw.taken == old(hw.taken) + i
    {
      var _ := MasterTransmitByte(hw, buffer[i]);
      assert buffer[..i + 1] == buffer[..i] + [buffer[i]];
      i := i + 1;
    }
  }

  /** `spi_master_receive_byte`: clock one byte in by sending 0xFF. */
  method MasterReceiveByte(hw: AvrSpiPort) returns (r: bv8)
    modifies hw`sent, hw`taken
    ensures hw.sent == old(hw.sent) + ReceiveTranscript(Master, 1)
    ensures hw.taken == old(hw.taken) + 1
    ensures r == hw.peer(old(hw.taken))
  {
    r := MasterTransmitByte(hw, Dummy);
  }

  /** `spi_master_receive_buffer`: `buffer[i]` is the i-th byte clocked in with 0xFF. */
  method MasterReceiveBuffer(hw: AvrSpiPort, buffer: array<bv8>, n: Len8)
    requires n <= buffer.Length
    modifies hw`sent, hw`taken, buffer
    ensures buffer[..n] == Window(hw.peer, old(hw.taken), n)
    ensures buffer[n..] == old(buffer[n..])
    ensures hw.sent == old(hw.sent) + ReceiveTranscript(Master, n)
    ensures hw.taken == old(hw.taken) + n
  {
    var i: Len8 := 0;
    while i < n
      invariant i <= n
      invariant buffer[..i] == Window(hw.peer, old(hw.taken), i)
      invariant buffer[n..] == old(buffer[n..])
      invariant hw.sent == old(hw.sent) + ReceiveTranscript(Master, i)
      invariant hw.taken == old(hw.taken) + i
    {
      WindowSplit(hw.peer, old(hw.taken), i);
      assert ReceiveTranscript(Master, i + 1) == ReceiveTranscript(Master, i) + [Dummy];
      buffer[i] := MasterReceiveByte(hw);
      assert buffer[..i + 1] == buffer[..i] + [buffer[i]];
      i := i + 1;
    }
  }

  /** `spi_slave_receive_byte`: wait for the master's transfer, send nothing. */
  method SlaveReceiveByte(hw: AvrSpiPort) returns (r: bv8)
    modifies hw`taken
    ensures hw.sent == old(hw.sent)
    ensures hw.taken == old(hw.taken) + 1
    ensures r == hw.peer(old(hw.taken))
  {
    r := hw.Await();
  }

  /** `spi_slave_receive_buffer`: `buffer[i]` is the i-th byte the master sends; nothing is driven. */
  method SlaveReceiveBuffer(hw: AvrSpiPort, buffer: array<bv8>, n: Len8)
    requires n <= buffer.Length
    modifies hw`taken, buffer
    ensures buffer[..n] == Window(hw.peer, old(hw.taken), n)
    ensures buffer[n..] == old(buffer[n..])
    ensures hw.sent == old(hw.sent)
    ensures hw.taken == old(hw.taken) + n
  {
    var i: Len8 := 0;
    while i < n
      invariant i <= n
      invariant buffer[..i] == Window(hw.peer, old(hw.taken), i)
      invariant buffer[n..] == old(buffer[n..])
      invariant hw.taken == old(hw.taken) + i
    {
      WindowSplit(hw.peer, old(hw.taken), i);
      buffer[i] := SlaveReceiveByte(hw);
      assert buffer[..i + 1] == buffer[..i] + [buffer[i]];
      i := i + 1;
    }
  }
}
