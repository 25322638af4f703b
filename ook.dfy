/** The configuration routines: a reset, then a fixed script of single-register
    writes whose errors are ignored. Only a failed reset is reported. */
module Ook {
  import opened Registers
  import opened Hardware
  import opened Cc1101
  import opened Spi
  import opened Script

  /** The writes of Configure, in the order it issues them. */
  const CONFIGURE: seq<Write> := [
    (IOCFG2, 0x29), (IOCFG0, 0x06),
    (PKTCTRL1, 0x04), (PKTCTRL0, 0x32), (PKTLEN, 0xFF),
    (FIFOTHR, 0x47),
    (SYNC1, 0xD3), (SYNC0, 0x91),
    (MDMCFG4, 0xC8), (MDMCFG3, 0x93), (MDMCFG2, 0x30), (MDMCFG1, 0x22), (MDMCFG0, 0xF8),
    (DEVIATN, 0x15),
    (MCSM2, 0x07), (MCSM1, 0x30), (MCSM0, 0x18),
    (FOCCFG, 0x16), (BSCFG, 0x6C),
    (AGCCTRL2, 0x03), (AGCCTRL1, 0x40), (AGCCTRL0, 0x91),
    (WORCTRL, 0xFB),
    (FREND1, 0x56), (FREND0, 0x10),
    (FSCAL3, 0xE9), (FSCAL2, 0x2A), (FSCAL1, 0x00), (FSCAL0, 0x1F),
    (RCCTRL1, 0x41), (RCCTRL0, 0x00),
    (TEST2, 0x81), (TEST1, 0x35), (TEST0, 0x09)]

  /** The writes ConfigureOOKCarrierWave adds after Configure. */
  const CARRIER_WAVE: seq<Write> := [(PKTCTRL0, 0x32), (MDMCFG2, 0x32), (IOCFG0, 0x0D)]

  /** The writes of ConfigureOOKPacket, in the order it issues them. */
  const OOK_PACKET: seq<Write> := [
    (PKTCTRL0, 0x05), (PKTCTRL1, 0x04), (PKTLEN, 0xFF),
    (MDMCFG4, 0xF7), (MDMCFG3, 0x83), (MDMCFG2, 0x32),
    (MDMCFG1, 0x22), (SYNC1, 0x12), (SYNC0, 0x34),
    (MDMCFG0, 0xF8), (DEVIATN, 0x15),
    (MCSM2, 0x07), (MCSM1, 0x30), (MCSM0, 0x18),
    (FOCCFG, 0x16), (BSCFG, 0x6C),
    (AGCCTRL2, 0x03), (AGCCTRL1, 0x40), (AGCCTRL0, 0x91),
    (WORCTRL, 0xFB), (FREND1, 0x56), (FREND0, 0x10),
    (FSCAL3, 0xE9), (FSCAL2, 0x2A), (FSCAL1, 0x00), (FSCAL0, 0x1F),
    (RCCTRL1, 0x41), (RCCTRL0, 0x00),
    (TEST2, 0x81), (TEST1, 0x35), (TEST0, 0x09)]

  /** The events of Reset from exchange n on: the chip-select pulse, then the SRES strobe frame. */
  ghost function ResetEvents(o: nat -> Answer, n: nat): seq<Event>
  {
    [Cs(false), Cs(true)] + FrameEvents(o, n, [[SRES]])
  }

  /** Reset, then the script. A failed reset is reported wrapped and no
      register is written; once the reset went through the script runs to the
      end and nil is returned, whatever its writes did. */
  method RunAfterReset(d: Device, script: seq<Write>) returns (err: Option<Error>)
    modifies d.bus
    ensures var o, n, t := d.bus.oracle, old(d.bus.count), old(d.bus.trace);
      && (o(n).Fault? ==>
            && err == Some(ResetFailed(Transport))
            && d.bus.trace == t + ResetEvents(o, n) && d.bus.count == n + 1
            && d.bus.Regs() == old(d.bus.Regs()))
      && (!o(n).Fault? ==>
            var r := Run(o, n + 1, old(d.bus.Regs()), script);
            && err.None?
            && d.bus.trace == t + ResetEvents(o, n) + r.events && d.bus.count == r.count
            && d.bus.Regs() == r.regs)
  {
    ghost var o, n, t := d.bus.oracle, d.bus.count, d.bus.trace;
    assert |Exchanges(o, n, [[SRES]])| == 1 by {
      assert [[SRES]][1..] == [];
    }
    var e := Reset(d);
    assert d.bus.trace == t + ResetEvents(o, n) by {
      Regroup(t, [Cs(false), Cs(true)], FrameEvents(o, n, [[SRES]]));
    }
    if e.Some? {
      return Some(ResetFailed(e.value));
    }
    WriteScript(d, script);
    return None;
  }

  /** Configure: reset, then the 34 writes of CONFIGURE. */
  method Configure(d: Device) returns (err: Option<Error>)
    modifies d.bus
    ensures var o, n, t := d.bus.oracle, old(d.bus.count), old(d.bus.trace);
      && (o(n).Fault? ==>
            && err == Some(ResetFailed(Transport))
            && d.bus.trace == t + ResetEvents(o, n) && d.bus.count == n + 1
            && d.bus.Regs() == old(d.bus.Regs()))
      && (!o(n).Fault? ==>
            var r := Run(o, n + 1, old(d.bus.Regs()), CONFIGURE);
            && err.None?
            && d.bus.trace == t + ResetEvents(o, n) + r.events && d.bus.count == r.count
            && d.bus.Regs() == r.regs)
  {
    err := RunAfterReset(d, CONFIGURE);
  }

  /** ConfigureOOKCarrierWave: Configure, returning its error unchanged; then
      the three writes of CARRIER_WAVE. */
  method ConfigureOOKCarrierWave(d: Device) returns (err: Option<Error>)
    modifies d.bus
    ensures var o, n, t := d.bus.oracle, old(d.bus.count), old(d.bus.trace);
      && (o(n).Fault? ==>
            && err == Some(ResetFailed(Transport))
            && d.bus.trace == t + ResetEvents(o, n) && d.bus.count == n + 1
            && d.bus.Regs() == old(d.bus.Regs()))
      && (!o(n).Fault? ==>
            var r1 := Run(o, n + 1, old(d.bus.Regs()), CONFIGURE);
            var r2 := Run(o, r1.count, r1.regs, CARRIER_WAVE);
            && err.None?
            && d.bus.trace == t + ResetEvents(o, n) + r1.events + r2.events && d.bus.count == r2.count
            && d.bus.Regs() == r2.regs)
  {
    err := Configure(d);
    if err.Some? {
      return err;
    }
    WriteScript(d, CARRIER_WAVE);
    return None;
  }

  /** ConfigureOOKPacket: reset, then the 31 writes of OOK_PACKET. */
  method ConfigureOOKPacket(d: Device) returns (err: Option<Error>)
    modifies d.bus
    ensures var o, n, t := d.bus.oracle, old(d.bus.count), old(d.bus.trace);
      && (o(n).Fault? ==>
            && err == Some(ResetFailed(Transport))
            && d.bus.trace == t + ResetEvents(o, n) && d.bus.count == n + 1
            && d.bus.Regs() == old(d.bus.Regs()))
      && (!o(n).Fault? ==>
            var r := Run(o, n + 1, old(d.bus.Regs()), OOK_PACKET);
            && err.None?
            && d.bus.trace == t + ResetEvents(o, n) + r.events && d.bus.count == r.count
            && d.bus.Regs() == r.regs)
  {
    err := RunAfterReset(d, OOK_PACKET);
  }

  /** The index in CONFIGURE of the write to each register; 34 for the
      registers Configure does not write. */
  function ConfigureIndex(a: nat): nat
  {
    match a
    case 0x00 => 0   case 0x02 => 1   case 0x07 => 2   case 0x08 => 3   case 0x06 => 4
    case 0x03 => 5   case 0x04 => 6   case 0x05 => 7   case 0x10 => 8   case 0x11 => 9
    case 0x12 => 10  case 0x13 => 11  case 0x14 => 12  case 0x15 => 13  case 0x16 => 14
    case 0x17 => 15  case 0x18 => 16  case 0x19 => 17  case 0x1A => 18  case 0x1B => 19
    case 0x1C => 20  case 0x1D => 21  case 0x20 => 22  case 0x21 => 23  case 0x22 => 24
    case 0x23 => 25  case 0x24 => 26  case 0x25 => 27  case 0x26 => 28  case 0x27 => 29
    case 0x28 => 30  case 0x2C => 31  case 0x2D => 32  case 0x2E => 33
    case _ => 34
  }

  /** Every write of Configure lands in a configuration register, and no
      register is written twice. */
  lemma ConfigurePositioned()
    ensures Positioned(CONFIGURE, ConfigureIndex)
  {
  }

  /** With every write delivered, each register Configure writes holds the
      value of its write. */
  lemma ConfigureWritten(o: nat -> Answer, c: nat, regs: map<nat, byte>, i: nat)
    requires forall k :: c <= k < c + 2 * |CONFIGURE| ==> !o(k).Fault?
    requires i < |CONFIGURE|
    ensures Target(CONFIGURE[i]).Some?
    ensures var r, a := Run(o, c, regs, CONFIGURE).regs, Target(CONFIGURE[i]).value;
      a in r && r[a] == CONFIGURE[i].1
  {
    RunDelivered(o, c, regs, CONFIGURE);
    ConfigurePositioned();
    OverlayWritten(regs, CONFIGURE, ConfigureIndex, i);
  }

  /** With every write delivered, Configure leaves the modem in OOK with
      16/16 sync (MDMCFG2 0x30), PA table index 0 (FREND0 0x10), asynchronous
      serial mode (PKTCTRL0 0x32) and the sync word 0xD391. */
  lemma ConfigureRegisters(o: nat -> Answer, c: nat, regs: map<nat, byte>)
    requires forall k :: c <= k < c + 2 * |CONFIGURE| ==> !o(k).Fault?
    ensures var r := Run(o, c, regs, CONFIGURE).regs;
      && MDMCFG2 as nat in r && r[MDMCFG2 as nat] == 0x30
      && FREND0 as nat in r && r[FREND0 as nat] == 0x10
      && PKTCTRL0 as nat in r && r[PKTCTRL0 as nat] == 0x32
      && SYNC1 as nat in r && r[SYNC1 as nat] == 0xD3
      && SYNC0 as nat in r && r[SYNC0 as nat] == 0x91
  {
    assert CONFIGURE[10] == (MDMCFG2, 0x30);
    assert CONFIGURE[24] == (FREND0, 0x10);
    assert CONFIGURE[3] == (PKTCTRL0, 0x32);
    assert CONFIGURE[6] == (SYNC1, 0xD3);
    assert CONFIGURE[7] == (SYNC0, 0x91);
    ConfigureWritten(o, c, regs, 10);
    ConfigureWritten(o, c, regs, 24);
    ConfigureWritten(o, c, regs, 3);
    ConfigureWritten(o, c, regs, 6);
    ConfigureWritten(o, c, regs, 7);
  }

  /** With every write delivered, the carrier-wave additions set PKTCTRL0
      0x32, MDMCFG2 0x32 (no sync word) and IOCFG0 0x0D (serial data out). */
  lemma CarrierWaveRegisters(o: nat -> Answer, c: nat, regs: map<nat, byte>)
    requires forall k :: c <= k < c + 2 * |CARRIER_WAVE| ==> !o(k).Fault?
    ensures var r := Run(o, c, regs, CARRIER_WAVE).regs;
      && PKTCTRL0 as nat in r && r[PKTCTRL0 as nat] == 0x32
      && MDMCFG2 as nat in r && r[MDMCFG2 as nat] == 0x32
      && IOCFG0 as nat in r && r[IOCFG0 as nat] == 0x0D
  {
    RunDelivered(o, c, regs, CARRIER_WAVE);
    OverlayLast(regs, CARRIER_WAVE, PKTCTRL0 as nat, 0);
    OverlayLast(regs, CARRIER_WAVE, MDMCFG2 as nat, 1);
    OverlayLast(regs, CARRIER_WAVE, IOCFG0 as nat, 2);
  }

  /** Whatever the transport does, the carrier-wave additions leave every
      register other than PKTCTRL0, MDMCFG2 and IOCFG0 as Configure left it. */
  lemma CarrierWaveKeeps(o: nat -> Answer, c: nat, regs: map<nat, byte>, a: nat)
    requires a != PKTCTRL0 as nat && a != MDMCFG2 as nat && a != IOCFG0 as nat
    ensures var r := Run(o, c, regs, CARRIER_WAVE).regs;
      (a in r) == (a in regs) && (a in regs ==> r[a] == regs[a])
  {
    RunKeeps(o, c, regs, CARRIER_WAVE, a);
  }

  /** The index in OOK_PACKET of the write to each register; 31 for the
      registers ConfigureOOKPacket does not write. */
  function OokPacketIndex(a: nat): nat
  {
    match a
    case 0x08 => 0   case 0x07 => 1   case 0x06 => 2   case 0x10 => 3   case 0x11 => 4
    case 0x12 => 5   case 0x13 => 6   case 0x04 => 7   case 0x05 => 8   case 0x14 => 9
    case 0x15 => 10  case 0x16 => 11  case 0x17 => 12  case 0x18 => 13  case 0x19 => 14
    case 0x1A => 15  case 0x1B => 16  case 0x1C => 17  case 0x1D => 18  case 0x20 => 19
    case 0x21 => 20  case 0x22 => 21  case 0x23 => 22  case 0x24 => 23  case 0x25 => 24
    case 0x26 => 25  case 0x27 => 26  case 0x28 => 27  case 0x2C => 28  case 0x2D => 29
    case 0x2E => 30
    case _ => 31
  }

  /** Every write of ConfigureOOKPacket lands in a configuration register,
      and no register is written twice. */
  lemma OokPacketPositioned()
    ensures Positioned(OOK_PACKET, OokPacketIndex)
  {
  }

  /** With every write delivered, each register ConfigureOOKPacket writes
      holds the value of its write. */
  lemma OokPacketWritten(o: nat -> Answer, c: nat, regs: map<nat, byte>, i: nat)
    requires forall k :: c <= k < c + 2 * |OOK_PACKET| ==> !o(k).Fault?
    requires i < |OOK_PACKET|
    ensures Target(OOK_PACKET[i]).Some?
    ensures var r, a := Run(o, c, regs, OOK_PACKET).regs, Target(OOK_PACKET[i]).value;
      a in r && r[a] == OOK_PACKET[i].1
  {
    RunDelivered(o, c, regs, OOK_PACKET);
    OokPacketPositioned();
    OverlayWritten(regs, OOK_PACKET, OokPacketIndex, i);
  }

  /** With every write delivered, ConfigureOOKPacket sets variable-length
      packets with CRC (PKTCTRL0 0x05), the 10 kBaud data rate (MDMCFG4 0xF7,
      MDMCFG3 0x83), OOK with sync (MDMCFG2 0x32) and the sync word 0x1234. */
  lemma OokPacketRegisters(o: nat -> Answer, c: nat, regs: map<nat, byte>)
    requires forall k :: c <= k < c + 2 * |OOK_PACKET| ==> !o(k).Fault?
    ensures var r := Run(o, c, regs, OOK_PACKET).regs;
      && PKTCTRL0 as nat in r && r[PKTCTRL0 as nat] == 0x05
      && MDMCFG4 as nat in r && r[MDMCFG4 as nat] == 0xF7
      && MDMCFG3 as nat in r && r[MDMCFG3 as nat] == 0x83
      && MDMCFG2 as nat in r && r[MDMCFG2 as nat] == 0x32
      && SYNC1 as nat in r && r[SYNC1 as nat] == 0x12
      && SYNC0 as nat in r && r[SYNC0 as nat] == 0x34
  {
    assert OOK_PACKET[0] == (PKTCTRL0, 0x05);
    assert OOK_PACKET[3] == (MDMCFG4, 0xF7);
    assert OOK_PACKET[4] == (MDMCFG3, 0x83);
    assert OOK_PACKET[5] == (MDMCFG2, 0x32);
    assert OOK_PACKET[7] == (SYNC1, 0x12);
    assert OOK_PACKET[8] == (SYNC0, 0x34);
    OokPacketWritten(o, c, regs, 0);
    OokPacketWritten(o, c, regs, 3);
    OokPacketWritten(o, c, regs, 4);
    OokPacketWritten(o, c, regs, 5);
    OokPacketWritten(o, c, regs, 7);
    OokPacketWritten(o, c, regs, 8);
  }

  /** Whatever the transport does, ConfigureOOKPacket's script never touches
      IOCFG2, IOCFG0 or FIFOTHR. */
  lemma OokPacketKeeps(o: nat -> Answer, c: nat, regs: map<nat, byte>, a: nat)
    requires a == IOCFG2 as nat || a == IOCFG0 as nat || a == FIFOTHR as nat
    ensures var r := Run(o, c, regs, OOK_PACKET).regs;
      (a in r) == (a in regs) && (a in regs ==> r[a] == regs[a])
  {
    OokPacketPositioned();
    PositionedKeeps(o, c, regs, OOK_PACKET, OokPacketIndex, a);
  }
}
