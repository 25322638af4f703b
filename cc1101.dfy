/** The device handle, the driver's package-level configuration state and
    its error values. */
module Cc1101 {
  import opened Registers
  import opened Hardware

  datatype Option<+T> = None | Some(value: T)

  /** The errors the driver returns; nil is None. Wrapping errors keep their cause. */
  datatype Error =
    | Transport                        // an exchange on the bus failed
    | InvalidSyncMode(choice: int)     // SetSYNC_MODE with a choice outside 0..7
    | UnsupportedModulation            // SetModulation with an unknown name
    | RegisterWrite(cause: Error)      // the MDMCFG2 write of a sub-field setter failed
    | PacketTooLong(length: nat)       // SendData with more than FIFOBUFFER bytes
    | TxFifoWrite(cause: Error)        // the TX FIFO burst of SendData failed
    | MarcstateRead(cause: Error)      // a MARCSTATE poll of SendData failed
    | ResetFailed(cause: Error)        // the reset of a configuration script failed

  /** The MDMCFG2 byte packed from its four sub-fields: DC-filter-off in bit
      7, modulation in bits 6-4, Manchester in bit 3 and sync mode in bits
      2-0. Each field is masked, so a stray bit of one never reaches another. */
  function Mdmcfg2(dcOff: byte, modFormat: byte, manchester: byte, syncMode: byte): (b: byte)
    ensures b & 0x80 == dcOff & 0x80
    ensures b & 0x70 == modFormat & 0x70
    ensures b & 0x08 == manchester & 0x08
    ensures b & 0x07 == syncMode & 0x07
  {
    (dcOff & 0x80) | (modFormat & 0x70) | (manchester & 0x08) | (syncMode & 0x07)
  }

  /** A byte is determined by its four MDMCFG2 fields: repacking the fields
      of any byte gives that byte back. */
  lemma Mdmcfg2Repack(b: byte)
    ensures Mdmcfg2(b, b, b, b) == b
  {
  }

  /** The package-level mutable state. The source keeps it in globals that
      every device shares, so there is one such object for all devices. */
  class Globals {
    var ccMode: bool        // StateCCMode
    var rxBandwidth: byte   // m4RxBw, added to the MDMCFG4 base value
    // The four stored sub-fields of MDMCFG2.
    var dcOff: byte         // m2DCOFF, bit 7
    var modFormat: byte     // m2MODFM, bits 6-4
    var manchester: byte    // m2MANCH, bit 3
    var syncMode: byte      // m2SYNCM, bits 2-0
    var marcState: byte     // marcstate, the last MARCSTATE read by SetRx/SetTx

    /** The MDMCFG2 byte the stored sub-fields give. */
    function Packed(): byte
      reads this
    {
      Mdmcfg2(dcOff, modFormat, manchester, syncMode)
    }

    /** The values the globals have at program start. */
    constructor ()
      ensures !ccMode && rxBandwidth == 0 && marcState == 0
      ensures dcOff == 0 && modFormat == 0 && manchester == 0 && syncMode == 0x02
      ensures Packed() == 0x02
    {
      ccMode := false;
      rxBandwidth := 0;
      dcOff, modFormat, manchester, syncMode := 0, 0, 0, 0x02;
      marcState := 0;
    }
  }

  /** A handle on one chip. The SPI transport, the chip-select output and the
      MISO input are one simulated bus object, since they act on one transcript. */
  class Device {
    const bus: Bus

    /** New: keeps the bus and issues no traffic on it. */
    constructor (bus: Bus)
      ensures this.bus == bus
      ensures bus.trace == old(bus.trace) && bus.count == old(bus.count)
    {
      this.bus := bus;
    }
  }
}
