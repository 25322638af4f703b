/** Packet transmission: a length guard against the TX FIFO, an idle strobe,
    a FIFO flush, the length-prefixed payload burst into the FIFO, the
    transmit strobe, and a wait until MARCSTATE leaves the transmit states. */
module Packet {
  import opened Registers
  import opened Hardware
  import opened Cc1101
  import opened Spi

  // ---------------------------------------------------------------------------
  // FIFO payload

  /** The bytes written to the TX FIFO: the packet length as one byte (the
      conversion keeps the low 8 bits), then the packet. */
  function FifoPayload(packet: seq<byte>): (payload: seq<byte>)
    ensures |payload| == |packet| + 1
  {
    [(|packet| % 256) as byte] + packet
  }

  /** What a receiver of a variable-length packet takes from the FIFO bytes:
      the length byte must count the bytes after it. */
  function ParsePayload(payload: seq<byte>): Option<seq<byte>>
  {
    if |payload| == 0 || payload[0] as nat != |payload| - 1 then None else Some(payload[1..])
  }

  /** A packet that fits the FIFO is recovered from its payload. */
  lemma PayloadRoundTrip(packet: seq<byte>)
    requires |packet| <= FIFOBUFFER
    ensures ParsePayload(FifoPayload(packet)) == Some(packet)
  {
    assert FifoPayload(packet)[1..] == packet;
  }

  /** Build the payload in a fresh buffer: the length byte at index 0, then a
      copy of the packet from index 1 on. */
  method BuildPayload(packet: seq<byte>) returns (payload: seq<byte>)
    ensures payload == FifoPayload(packet)
  {
    var buf := new byte[1 + |packet|];
    buf[0] := (|packet| % 256) as byte;
    forall i | 0 <= i < |packet| {
      buf[i + 1] := packet[i];
    }
    payload := buf[..];
  }

  /** The FIFO is written as a burst at TXFIFO_SINGLE_BYTE, so its header byte is 0x7F. */
  lemma FifoHeader()
    ensures TXFIFO_SINGLE_BYTE | WRITEBURST == 0x7F
  {
  }

  // ---------------------------------------------------------------------------
  // Waiting for the end of transmission

  /** How the MARCSTATE wait ends: the state left TX and TX_END, a read
      failed, or the fuel ran out while the chip was still transmitting. */
  datatype WaitEnd = Left | ReadFailed | OutOfFuel

  /** What the wait leaves behind: its events, the exchange counter and how it ended. */
  datatype Wait = Wait(events: seq<Event>, count: nat, end: WaitEnd)

  /** The state bits of a MARCSTATE value still say the chip is transmitting. */
  predicate Transmitting(state: byte)
  {
    var current := state & MARCSTATE_MASK;
    current == MARCSTATE_TX || current == MARCSTATE_TX_END
  }

  /** Only the five state bits decide whether the chip is still sending:
      the high bits are ignored, and RX (0x0D) and IDLE (0x01) read as done. */
  lemma TransmittingMasked(state: byte)
    ensures Transmitting(state & MARCSTATE_MASK) == Transmitting(state)
    ensures Transmitting(state | 0xE0) == Transmitting(state)
    ensures Transmitting(MARCSTATE_TX | 0x80) && Transmitting(MARCSTATE_TX_END)
    ensures !Transmitting(MARCSTATE_RX) && !Transmitting(0x01)
  {
  }

  /** Read MARCSTATE from exchange n on, at most fuel times, until a read
      fails or the masked state is neither TX nor TX_END. */
  ghost function Waited(o: nat -> Answer, n: nat, fuel: nat): Wait
    decreases fuel
  {
    if fuel == 0 then Wait([], n, OutOfFuel)
    else
      var frame := FrameEvents(o, n, [[MARCSTATE | READSINGLE], [0x00]]);
      var m := n + |Exchanges(o, n, [[MARCSTATE | READSINGLE], [0x00]])|;
      if o(n).Fault? || o(n + 1).Fault? then Wait(frame, m, ReadFailed)
      else if !Transmitting(Fill(o(n + 1), 1)[0]) then Wait(frame, m, Left)
      else
        var rest := Waited(o, m, fuel - 1);
        Wait(frame + rest.events, rest.count, rest.end)
  }

  /** The wait makes at most two exchanges per read. It runs out of fuel only
      when every one of its fuel reads went through and saw the chip still
      transmitting; it ends Left only after a read that went through. */
  lemma {:induction false} WaitBound(o: nat -> Answer, n: nat, fuel: nat)
    ensures var w := Waited(o, n, fuel);
      && n <= w.count <= n + 2 * fuel
      && (w.end == OutOfFuel ==>
            && w.count == n + 2 * fuel
            && (forall k :: n <= k < n + 2 * fuel ==> !o(k).Fault?)
            && (forall j :: 0 <= j < fuel ==> Transmitting(Fill(o(n + 2 * j + 1), 1)[0])))
      && (w.end == Left ==> fuel > 0 && w.count >= n + 2 && !o(w.count - 2).Fault? && !o(w.count - 1).Fault?
                             && !Transmitting(Fill(o(w.count - 1), 1)[0]))
    decreases fuel
  {
    if fuel > 0 {
      ExchangesTwo(o, n, [MARCSTATE | READSINGLE], [0x00]);
      if !o(n).Fault? && !o(n + 1).Fault? && Transmitting(Fill(o(n + 1), 1)[0]) {
        WaitBound(o, n + 2, fuel - 1);
        var w := Waited(o, n, fuel);
        if w.end == OutOfFuel {
          forall j | 0 <= j < fuel ensures Transmitting(Fill(o(n + 2 * j + 1), 1)[0]) {
            if j > 0 {
              assert n + 2 * j + 1 == (n + 2) + 2 * (j - 1) + 1;
            }
          }
        }
      }
    }
  }

  /** One more read moves the remaining wait one step on, or ends it. */
  lemma WaitStep(o: nat -> Answer, n: nat, fuel: nat, t: seq<Event>, whole: Wait, t2: seq<Event>, n2: nat)
    requires fuel > 0
    requires whole.events == t + Waited(o, n, fuel).events
    requires whole.count == Waited(o, n, fuel).count && whole.end == Waited(o, n, fuel).end
    requires t2 == t + FrameEvents(o, n, [[MARCSTATE | READSINGLE], [0x00]])
    requires n2 == n + |Exchanges(o, n, [[MARCSTATE | READSINGLE], [0x00]])|
    ensures o(n).Fault? || o(n + 1).Fault? ==> whole == Wait(t2, n2, ReadFailed)
    ensures !o(n).Fault? && !o(n + 1).Fault? && !Transmitting(Fill(o(n + 1), 1)[0]) ==> whole == Wait(t2, n2, Left)
    ensures !o(n).Fault? && !o(n + 1).Fault? && Transmitting(Fill(o(n + 1), 1)[0]) ==>
      var rest := Waited(o, n2, fuel - 1);
      whole.events == t2 + rest.events && whole.count == rest.count && whole.end == rest.end
  {
    var frame := FrameEvents(o, n, [[MARCSTATE | READSINGLE], [0x00]]);
    if !o(n).Fault? && !o(n + 1).Fault? && Transmitting(Fill(o(n + 1), 1)[0]) {
      var rest := Waited(o, n2, fuel - 1);
      assert Waited(o, n, fuel) == Wait(frame + rest.events, rest.count, rest.end);
      Regroup(t, frame, rest.events);
    }
  }

  /** The polling loop of SendData: read MARCSTATE until a read fails or the
      masked state is neither TX nor TX_END, at most fuel times. */
  method AwaitTxDone(d: Device, fuel: nat) returns (end: WaitEnd)
    modifies d.bus
    ensures var w := Waited(d.bus.oracle, old(d.bus.count), fuel);
      && d.bus.trace == old(d.bus.trace) + w.events
      && d.bus.count == w.count
      && end == w.end
    ensures d.bus.Regs() == old(d.bus.Regs())
  {
    ghost var o, t0 := d.bus.oracle, d.bus.trace;
    ghost var w := Waited(o, d.bus.count, fuel);
    ghost var whole := Wait(t0 + w.events, w.count, w.end);
    var f := fuel;
    while f > 0
      invariant whole.events == d.bus.trace + Waited(o, d.bus.count, f).events
      invariant whole.count == Waited(o, d.bus.count, f).count
      invariant whole.end == Waited(o, d.bus.count, f).end
      invariant d.bus.Regs() == old(d.bus.Regs())
      decreases f
    {
      ghost var t, n := d.bus.trace, d.bus.count;
      var state, e := ReadSingleRegister(d, MARCSTATE);
      WaitStep(o, n, f, t, whole, d.bus.trace, d.bus.count);
      if e.Some? {
        return ReadFailed;
      }
      var currentState := state & MARCSTATE_MASK;
      if currentState != MARCSTATE_TX && currentState != MARCSTATE_TX_END {
        return Left;
      }
      f := f - 1;
    }
    assert d.bus.trace + [] == d.bus.trace;
    return OutOfFuel;
  }

  // ---------------------------------------------------------------------------
  // SendData

  /** What SendData leaves behind for a packet that fits the FIFO. */
  datatype Transmission = Transmission(events: seq<Event>, count: nat, err: Option<Error>, exhausted: bool)

  /** The burst that writes packet's payload into the TX FIFO. */
  function FifoOuts(packet: seq<byte>): seq<seq<byte>>
  {
    BurstOuts(TXFIFO_SINGLE_BYTE | WRITEBURST, FifoPayload(packet))
  }

  /** The frames SendData makes before STX, from exchange n on: SIDLE, SFTX
      and the FIFO burst. */
  ghost function Loaded(o: nat -> Answer, n: nat, packet: seq<byte>): seq<Event>
  {
    FrameEvents(o, n, [[SIDLE]]) + FrameEvents(o, n + 1, [[SFTX]]) + FrameEvents(o, n + 2, FifoOuts(packet))
  }

  /** The exchange counter after those frames. */
  ghost function LoadedCount(o: nat -> Answer, n: nat, packet: seq<byte>): nat
  {
    n + 2 + |Exchanges(o, n + 2, FifoOuts(packet))|
  }

  /** SendData for a packet that fits, from exchange n on: SIDLE, SFTX, the
      FIFO burst; if the burst failed, stop with a FIFO error; else STX and
      the MARCSTATE wait, whose read failure is the only other error. */
  ghost function Transmit(o: nat -> Answer, n: nat, packet: seq<byte>, fuel: nat): Transmission
  {
    var m := LoadedCount(o, n, packet);
    if !Delivered(o, n + 2, FifoOuts(packet)) then Transmission(Loaded(o, n, packet), m, Some(TxFifoWrite(Transport)), false)
    else
      var w := Waited(o, m + 1, fuel);
      Transmission(Loaded(o, n, packet) + (FrameEvents(o, m, [[STX]]) + w.events), w.count,
                   if w.end == ReadFailed then Some(MarcstateRead(Transport)) else None,
                   w.end == OutOfFuel)
  }

  /** The frames before STX, spelled out: SIDLE, then SFTX, then the FIFO
      burst, whose first exchange is the header 0x7F. */
  lemma LoadedOrder(o: nat -> Answer, n: nat, packet: seq<byte>)
    ensures var fifo := FrameEvents(o, n + 2, FifoOuts(packet));
      && fifo[2] == Xfer([0x7F], !o(n + 2).Fault?)
      && Loaded(o, n, packet) ==
           [Cs(false), MisoLow, Xfer([SIDLE], !o(n).Fault?), Cs(true),
            Cs(false), MisoLow, Xfer([SFTX], !o(n + 1).Fault?), Cs(true)] + fifo
  {
    ExchangesOne(o, n, [SIDLE]);
    ExchangesOne(o, n + 1, [SFTX]);
    var outs := FifoOuts(packet);
    assert outs[0] == [0x7F];
    assert Exchanges(o, n + 2, outs)[0] == Xfer([0x7F], !o(n + 2).Fault?);
  }

  /** STX and the wait follow only a FIFO burst that went through, and then
      STX comes right after it. */
  lemma TransmitOrder(o: nat -> Answer, n: nat, packet: seq<byte>, fuel: nat)
    ensures !Delivered(o, n + 2, FifoOuts(packet)) ==>
      Transmit(o, n, packet, fuel).events == Loaded(o, n, packet)
    ensures var m := LoadedCount(o, n, packet);
      Delivered(o, n + 2, FifoOuts(packet)) ==>
        Transmit(o, n, packet, fuel).events ==
          Loaded(o, n, packet) + ([Cs(false), MisoLow, Xfer([STX], !o(m).Fault?), Cs(true)] + Waited(o, m + 1, fuel).events)
  {
    var m := LoadedCount(o, n, packet);
    ExchangesOne(o, m, [STX]);
    assert FrameEvents(o, m, [[STX]]) == [Cs(false), MisoLow, Xfer([STX], !o(m).Fault?), Cs(true)];
  }

  /** SendData fails exactly when the FIFO burst or a MARCSTATE read fails;
      a read failure is reported only after a FIFO burst that went through;
      the fuel runs out only on a transmission without error. */
  lemma TransmitErrors(o: nat -> Answer, n: nat, packet: seq<byte>, fuel: nat)
    ensures var tr := Transmit(o, n, packet, fuel);
      var m := LoadedCount(o, n, packet);
      && (tr.err.None? <==> Delivered(o, n + 2, FifoOuts(packet)) && Waited(o, m + 1, fuel).end != ReadFailed)
      && (tr.err == Some(MarcstateRead(Transport)) ==> Delivered(o, n + 2, FifoOuts(packet)))
      && (tr.exhausted ==> tr.err.None?)
  {
  }

  /** The frames SendData makes before STX: strobe SIDLE and SFTX (errors
      ignored), build the length-prefixed payload and burst it into the TX
      FIFO; the result is the burst's error. */
  method LoadFifo(d: Device, packet: seq<byte>) returns (err: Option<Error>)
    modifies d.bus
    ensures var o, n := d.bus.oracle, old(d.bus.count);
      && d.bus.trace == old(d.bus.trace) + Loaded(o, n, packet)
      && d.bus.count == LoadedCount(o, n, packet)
      && (err.None? <==> Delivered(o, n + 2, FifoOuts(packet)))
      && (err.Some? ==> err.value == Transport)
    ensures d.bus.Regs() == old(d.bus.Regs())
  {
    ghost var o, t0, c0, regs0 := d.bus.oracle, d.bus.trace, d.bus.count, d.bus.Regs();
    var _ := SpiStrobe(d, SIDLE);
    ghost var t1, c1 := d.bus.trace, d.bus.count;
    var _ := SpiStrobe(d, SFTX);
    ghost var t2, c2 := d.bus.trace, d.bus.count;
    var payload := BuildPayload(packet);
    err := WriteBurstRegister(d, TXFIFO_SINGLE_BYTE, payload);
    LoadedSteps(o, c0, packet, t0, t1, c1, t2, c2, d.bus.trace, d.bus.count);
    FifoKeepsRegisters(regs0, payload, Landed(o, c2, payload), d.bus.Regs());
  }

  /** The three frames of LoadFifo, recorded one after another, make up Loaded. */
  lemma LoadedSteps(o: nat -> Answer, n: nat, packet: seq<byte>, t0: seq<Event>,
                    t1: seq<Event>, c1: nat, t2: seq<Event>, c2: nat, t3: seq<Event>, c3: nat)
    requires t1 == t0 + FrameEvents(o, n, [[SIDLE]]) && c1 == n + |Exchanges(o, n, [[SIDLE]])|
    requires t2 == t1 + FrameEvents(o, c1, [[SFTX]]) && c2 == c1 + |Exchanges(o, c1, [[SFTX]])|
    requires t3 == t2 + FrameEvents(o, c2, FifoOuts(packet)) && c3 == c2 + |Exchanges(o, c2, FifoOuts(packet))|
    ensures c2 == n + 2
    ensures t3 == t0 + Loaded(o, n, packet) && c3 == LoadedCount(o, n, packet)
  {
    ExchangesOne(o, n, [SIDLE]);
    ExchangesOne(o, n + 1, [SFTX]);
    var idle, flush := FrameEvents(o, n, [[SIDLE]]), FrameEvents(o, n + 1, [[SFTX]]);
    Regroup(t0, idle, flush);
    Regroup(t0, idle + flush, FrameEvents(o, n + 2, FifoOuts(packet)));
  }

  /** Whatever part of a burst into the FIFO lands, the register store is unchanged. */
  lemma FifoKeepsRegisters(regs0: map<nat, byte>, payload: seq<byte>, k: nat, regs: map<nat, byte>)
    requires k <= |payload|
    requires || regs == BurstStore(regs0, TXFIFO_SINGLE_BYTE as nat, payload)
             || regs == BurstStore(regs0, TXFIFO_SINGLE_BYTE as nat, payload[..k])
    ensures regs == regs0
  {
    BurstStoreAbove(regs0, TXFIFO_SINGLE_BYTE as nat, payload);
    BurstStoreAbove(regs0, TXFIFO_SINGLE_BYTE as nat, payload[..k]);
  }

  /** After a FIFO burst that went through, the STX strobe and a wait that
      ended with end after count c, SendData's transcript, counter and
      results are those of Transmit. */
  lemma TransmitSent(o: nat -> Answer, n: nat, packet: seq<byte>, fuel: nat, t0: seq<Event>, t: seq<Event>,
                     c: nat, end: WaitEnd, err: Option<Error>, exhausted: bool)
    requires Delivered(o, n + 2, FifoOuts(packet))
    requires var m := LoadedCount(o, n, packet);
      && t == t0 + Loaded(o, n, packet) + FrameEvents(o, m, [[STX]]) + Waited(o, m + 1, fuel).events
      && c == Waited(o, m + 1, fuel).count && end == Waited(o, m + 1, fuel).end
    requires err == (if end == ReadFailed then Some(MarcstateRead(Transport)) else None)
    requires exhausted == (end == OutOfFuel)
    ensures var tr := Transmit(o, n, packet, fuel);
      t == t0 + tr.events && c == tr.count && err == tr.err && exhausted == tr.exhausted
  {
    var m := LoadedCount(o, n, packet);
    var loaded, tx, wait := Loaded(o, n, packet), FrameEvents(o, m, [[STX]]), Waited(o, m + 1, fuel).events;
    assert Transmit(o, n, packet, fuel).events == loaded + (tx + wait);
    Regroup(t0 + loaded, tx, wait);
    Regroup(t0, loaded, tx + wait);
  }

  /** SendData: reject a packet longer than the FIFO before any traffic;
      otherwise load the FIFO, return a FIFO error without strobing STX, else
      strobe STX (error ignored) and wait, at most fuel reads, for MARCSTATE
      to leave the transmit states. exhausted reports that the fuel ran out
      first. */
  method SendData(d: Device, packet: seq<byte>, fuel: nat) returns (err: Option<Error>, exhausted: bool)
    modifies d.bus
    ensures |packet| > FIFOBUFFER ==>
      err == Some(PacketTooLong(|packet|)) && !exhausted && unchanged(d.bus)
    ensures |packet| <= FIFOBUFFER ==>
      var tr := Transmit(d.bus.oracle, old(d.bus.count), packet, fuel);
      && d.bus.trace == old(d.bus.trace) + tr.events
      && d.bus.count == tr.count
      && err == tr.err
      && exhausted == tr.exhausted
    ensures d.bus.Regs() == old(d.bus.Regs())
  {
    if |packet| > FIFOBUFFER {
      return Some(PacketTooLong(|packet|)), false;
    }
    ghost var o, n, t0 := d.bus.oracle, d.bus.count, d.bus.trace;
    var e := LoadFifo(d, packet);
    if e.Some? {
      return Some(TxFifoWrite(e.value)), false;
    }
    ghost var m := d.bus.count;
    assert m == LoadedCount(o, n, packet);
    ExchangesOne(o, m, [STX]);
    var _ := SpiStrobe(d, STX);
    assert d.bus.count == m + 1;
    var end := AwaitTxDone(d, fuel);
    err := if end == ReadFailed then Some(MarcstateRead(Transport)) else None;
    exhausted := end == OutOfFuel;
    TransmitSent(o, n, packet, fuel, t0, d.bus.trace, d.bus.count, end, err, exhausted);
  }
}
