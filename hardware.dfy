/** The hardware the driver talks to, simulated: the SPI transport, the
    chip-select output and the MISO ready input of one device, recorded as a
    single transcript of events, and a CC1101 register store that interprets
    the write frames of that transcript as they happen. */
module Hardware {
  import opened Registers

  /** What the transport answers to one exchange: a transport error, or the
      bytes clocked in on MISO. */
  datatype Answer = Fault | Answer(miso: seq<byte>)

  /** One observable action on the wires between the driver and the chip. */
  datatype Event =
    | Cs(high: bool)                    // chip-select driven to a level; low is active
    | MisoLow                           // the ready-wait observed MISO low
    | Xfer(sent: seq<byte>, ok: bool)   // one exchange, and whether the transport succeeded

  /** The bytes a zero-initialised receive buffer of length n holds after an
      exchange with answer a. */
  function Fill(a: Answer, n: nat): (r: seq<byte>)
    ensures |r| == n
    ensures a.Fault? ==> forall i :: 0 <= i < n ==> r[i] == 0
  {
    seq(n, i requires 0 <= i < n => if a.Answer? && i < |a.miso| then a.miso[i] else 0)
  }

  /** Configuration registers occupy addresses below this one. */
  const CONFIG_SPACE: nat := 0x30

  /** Where the chip's SPI interface is within a frame. */
  datatype Phase =
    | Released                          // chip-select inactive: bytes are ignored
    | AwaitHeader                       // next byte is a header
    | Writing(addr: nat, burst: bool)   // next byte is data for addr
    | Reading                           // the frame reads; incoming bytes are dummies

  datatype ChipState = ChipState(regs: map<nat, byte>, phase: Phase)

  /** A data byte for addr lands in the register store only when addr is a
      configuration register; PATABLE, the FIFO and strobes are not part of it. */
  function Store(regs: map<nat, byte>, addr: nat, value: byte): map<nat, byte>
  {
    if addr < CONFIG_SPACE then regs[addr := value] else regs
  }

  /** The register store after a burst of data bytes written from addr on. */
  function BurstStore(regs: map<nat, byte>, addr: nat, data: seq<byte>): map<nat, byte>
    decreases |data|
  {
    if data == [] then regs else BurstStore(Store(regs, addr, data[0]), addr + 1, data[1..])
  }

  /** One byte clocked into the chip. The header's bit 7 selects read, bit 6
      burst, bits 5-0 the address; a single write returns to header state. */
  function Clock(c: ChipState, b: byte): ChipState
  {
    match c.phase
    case Released => c
    case AwaitHeader =>
      ChipState(c.regs, if b & 0x80 != 0 then Reading else Writing((b & 0x3F) as nat, b & 0x40 != 0))
    case Writing(a, burst) =>
      ChipState(Store(c.regs, a, b), if burst then Writing(a + 1, true) else AwaitHeader)
    case Reading => c
  }

  function ClockAll(c: ChipState, bs: seq<byte>): ChipState
    decreases |bs|
  {
    if bs == [] then c else ClockAll(Clock(c, bs[0]), bs[1..])
  }

  /** Clocking in a one-byte buffer is clocking in that byte. */
  lemma ClockAllSingle()
    ensures forall c: ChipState, b: byte {:trigger ClockAll(c, [b])} :: ClockAll(c, [b]) == Clock(c, b)
  {
    forall c: ChipState, b: byte ensures ClockAll(c, [b]) == Clock(c, b) {
      assert [b][1..] == [];
    }
  }

  /** In a reading frame the chip ignores what the host clocks in. */
  lemma {:induction false} ClockAllReading(c: ChipState, bs: seq<byte>)
    requires c.phase == Reading
    ensures ClockAll(c, bs) == c
    decreases |bs|
  {
    if bs != [] {
      ClockAllReading(Clock(c, bs[0]), bs[1..]);
    }
  }

  /** One more data byte of a burst lands at the next address. */
  lemma BurstByte(regs: map<nat, byte>, base: nat, data: seq<byte>, i: nat)
    requires i < |data|
    ensures Clock(ChipState(BurstStore(regs, base, data[..i]), Writing(base + i, true)), data[i])
         == ChipState(BurstStore(regs, base, data[..i + 1]), Writing(base + i + 1, true))
  {
    BurstStoreAppend(regs, base, data[..i], data[i]);
    assert data[..i + 1] == data[..i] + [data[i]];
  }

  /** The chip's reaction to one event. Asserting chip-select starts a frame;
      a failed exchange leaves the chip as it was. */
  function Step(c: ChipState, e: Event): ChipState
  {
    match e
    case Cs(high) => ChipState(c.regs, if high then Released else AwaitHeader)
    case MisoLow => c
    case Xfer(sent, ok) => if ok then ClockAll(c, sent) else c
  }

  lemma {:induction false} BurstStoreAppend(regs: map<nat, byte>, addr: nat, data: seq<byte>, b: byte)
    ensures BurstStore(regs, addr, data + [b]) == Store(BurstStore(regs, addr, data), addr + |data|, b)
    decreases |data|
  {
    if data == [] {
      assert data + [b] == [b];
    } else {
      assert (data + [b])[1..] == data[1..] + [b];
      BurstStoreAppend(Store(regs, addr, data[0]), addr + 1, data[1..], b);
    }
  }

  /** A burst that starts above the configuration registers leaves the store unchanged. */
  lemma {:induction false} BurstStoreAbove(regs: map<nat, byte>, addr: nat, data: seq<byte>)
    requires addr >= CONFIG_SPACE
    ensures BurstStore(regs, addr, data) == regs
    decreases |data|
  {
    if data != [] {
      BurstStoreAbove(regs, addr + 1, data[1..]);
    }
  }

  /** A burst below the configuration limit writes data[i] to addr + i. */
  lemma {:induction false} BurstStoreAt(regs: map<nat, byte>, addr: nat, data: seq<byte>, i: nat)
    requires i < |data| && addr + |data| <= CONFIG_SPACE
    ensures addr + i in BurstStore(regs, addr, data)
    ensures BurstStore(regs, addr, data)[addr + i] == data[i]
    decreases |data|
  {
    if i == 0 {
      BurstStoreKeeps(Store(regs, addr, data[0]), addr + 1, data[1..], addr);
    } else {
      BurstStoreAt(Store(regs, addr, data[0]), addr + 1, data[1..], i - 1);
    }
  }

  /** Registers outside the burst's range keep their contents. */
  lemma {:induction false} BurstStoreKeeps(regs: map<nat, byte>, addr: nat, data: seq<byte>, a: nat)
    requires a < addr || a >= addr + |data|
    ensures (a in BurstStore(regs, addr, data)) == (a in regs)
    ensures a in regs ==> BurstStore(regs, addr, data)[a] == regs[a]
    decreases |data|
  {
    if data != [] {
      BurstStoreKeeps(Store(regs, addr, data[0]), addr + 1, data[1..], a);
    }
  }

  /** The simulated bus of one device. The transport's answers come from a
      fixed oracle indexed by the number of exchanges made so far; the chip
      on the other side reacts to every recorded event by Step. Every method
      that changes the transcript goes through Record, so chip is always Step
      folded over trace from the boot store given to the constructor, and
      Regs() is the register store that transcript has left behind. */
  class Bus {
    var trace: seq<Event>
    var count: nat
    const oracle: nat -> Answer
    ghost var chip: ChipState

    /** The chip's configuration registers as the transcript has left them. */
    ghost function Regs(): map<nat, byte>
      reads this
    {
      chip.regs
    }

    constructor (oracle: nat -> Answer, ghost boot: map<nat, byte>)
      ensures this.oracle == oracle
      ensures trace == [] && count == 0
      ensures chip == ChipState(boot, Released)
    {
      this.oracle := oracle;
      trace := [];
      count := 0;
      chip := ChipState(boot, Released);
    }

    method Record(e: Event)
      modifies this
      ensures trace == old(trace) + [e] && count == old(count)
      ensures chip == Step(old(chip), e)
    {
      trace := trace + [e];
      chip := Step(chip, e);
    }

    /** Drive the chip-select output; false is active. */
    method SetCs(high: bool)
      modifies this
      ensures trace == old(trace) + [Cs(high)] && count == old(count)
      ensures chip == Step(old(chip), Cs(high))
    {
      Record(Cs(high));
    }

    /** Wait until MISO reads low; the wait itself is one abstract step. */
    method AwaitMisoLow()
      modifies this
      ensures trace == old(trace) + [MisoLow] && count == old(count)
      ensures chip == old(chip)
    {
      Record(MisoLow);
    }

    /** Exchange out; the answer is the oracle's for this exchange. */
    method Tx(out: seq<byte>) returns (ok: bool, received: seq<byte>)
      modifies this
      ensures ok == !oracle(old(count)).Fault?
      ensures received == Fill(oracle(old(count)), |out|)
      ensures trace == old(trace) + [Xfer(out, ok)] && count == old(count) + 1
      ensures chip == Step(old(chip), Xfer(out, ok))
    {
      var a := oracle(count);
      ok := !a.Fault?;
      received := Fill(a, |out|);
      Record(Xfer(out, ok));
      count := count + 1;
    }
  }
}
