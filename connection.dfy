/** The presence check of a device handle. The driver keeps it next to the
    device type, but it reads a register through the SPI framing, and Spi
    itself imports Cc1101; so it sits in a module of its own above both. */
module Connection {
  import opened Registers
  import opened Hardware
  import opened Cc1101
  import opened Spi

  /** IsConnected: assert chip-select, then read register 0x31 (header 0xB1);
      the chip is present when the byte read is non-zero. A failed read
      yields 0 and so reports the chip absent. */
  method IsConnected(d: Device) returns (connected: bool)
    modifies d.bus
    ensures var o, n := d.bus.oracle, old(d.bus.count);
      && RecordedFrame(d.bus, old(d.bus.trace) + [Cs(false)], n, [[0xB1], [0x00]])
      && (connected <==> Delivered(o, n, [[0xB1], [0x00]]) && Fill(o(n + 1), 1)[0] != 0)
    ensures d.bus.Regs() == old(d.bus.Regs())
  {
    EnableCS(d);
    var state, _ := ReadSingleRegister(d, 0x31);
    connected := state > 0;
  }
}
