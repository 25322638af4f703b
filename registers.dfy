/** Addresses, command strobes, header flags and MARCSTATE values of the CC1101
    that the driver uses. Values as in the chip's register map. */
module Registers {

  /** One byte on the bus. */
  type byte = bv8

  /** A byte's value converts back to the byte. */
  lemma ByteBack(b: byte)
    ensures b as nat < 256 && (b as nat) as byte == b
  {
  }

  /** Adding one to a byte below 255 adds one to its value. */
  lemma Succ(c: byte)
    requires c as nat < 255
    ensures (c + 1) as nat == c as nat + 1
  {
  }

  /** Every value below 256 is the value of some byte, found by counting up. */
  lemma {:induction false} ByteOf(x: nat) returns (b: byte)
    requires x < 256
    ensures b as nat == x
  {
    if x == 0 {
      b := 0;
    } else {
      var c := ByteOf(x - 1);
      Succ(c);
      b := c + 1;
    }
  }

  /** A value below 256 survives the conversion to a byte. */
  lemma ValueBack(x: nat)
    requires x < 256
    ensures (x as byte) as nat == x
  {
    var b := ByteOf(x);
    ByteBack(b);
  }

  // Header flags OR'd into an address to select the kind of access.
  const READSINGLE: byte := 0x80
  const READBURST: byte := 0xC0
  const WRITEBURST: byte := 0x40

  /** Capacity of the chip's TX FIFO in bytes. */
  const FIFOBUFFER: nat := 0x40

  // Configuration registers.
  const IOCFG2: byte := 0x00
  const IOCFG0: byte := 0x02
  const FIFOTHR: byte := 0x03
  const SYNC1: byte := 0x04
  const SYNC0: byte := 0x05
  const PKTLEN: byte := 0x06
  const PKTCTRL1: byte := 0x07
  const PKTCTRL0: byte := 0x08
  const FREQ2: byte := 0x0D
  const FREQ1: byte := 0x0E
  const FREQ0: byte := 0x0F
  const MDMCFG4: byte := 0x10
  const MDMCFG3: byte := 0x11
  const MDMCFG2: byte := 0x12
  const MDMCFG1: byte := 0x13
  const MDMCFG0: byte := 0x14
  const DEVIATN: byte := 0x15
  const MCSM2: byte := 0x16
  const MCSM1: byte := 0x17
  const MCSM0: byte := 0x18
  const FOCCFG: byte := 0x19
  const BSCFG: byte := 0x1A
  const AGCCTRL2: byte := 0x1B
  const AGCCTRL1: byte := 0x1C
  const AGCCTRL0: byte := 0x1D
  const WORCTRL: byte := 0x20
  const FREND1: byte := 0x21
  const FREND0: byte := 0x22
  const FSCAL3: byte := 0x23
  const FSCAL2: byte := 0x24
  const FSCAL1: byte := 0x25
  const FSCAL0: byte := 0x26
  const RCCTRL1: byte := 0x27
  const RCCTRL0: byte := 0x28
  const TEST2: byte := 0x2C
  const TEST1: byte := 0x2D
  const TEST0: byte := 0x2E

  // Multi-byte targets above the configuration registers.
  const PATABLE: byte := 0x3E
  const TXFIFO_SINGLE_BYTE: byte := 0x3F

  // Command strobes.
  const SRES: byte := 0x30
  const SRX: byte := 0x34
  const STX: byte := 0x35
  const SIDLE: byte := 0x36
  const SFTX: byte := 0x3B

  // Status register holding the main radio state machine's state.
  const MARCSTATE: byte := 0xF5

  // MARCSTATE values and the mask that selects the state bits.
  const MARCSTATE_MASK: byte := 0x1F
  const MARCSTATE_RX: byte := 0x0D
  const MARCSTATE_TX: byte := 0x13
  const MARCSTATE_TX_END: byte := 0x14
}
