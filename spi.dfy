/** The SPI framing primitives: chip-select handling, reset, single and burst
    register access and command strobes. Every primitive is one frame:
    chip-select active, wait for MISO low, the exchanges in order (stopping at
    the first transport error), chip-select inactive. */
module Spi {
  import opened Registers
  import opened Hardware
  import opened Cc1101

  /** The exchanges of a frame that sends the buffers outs in order, starting
      at exchange number n; a buffer is sent only if every earlier one went through. */
  ghost function Exchanges(o: nat -> Answer, n: nat, outs: seq<seq<byte>>): seq<Event>
    decreases |outs|
  {
    if outs == [] then []
    else if o(n).Fault? then [Xfer(outs[0], false)]
    else [Xfer(outs[0], true)] + Exchanges(o, n + 1, outs[1..])
  }

  /** Every exchange of the frame succeeds. */
  ghost predicate Delivered(o: nat -> Answer, n: nat, outs: seq<seq<byte>>)
  {
    forall k :: n <= k < n + |outs| ==> !o(k).Fault?
  }

  /** The whole transcript of one frame. */
  ghost function FrameEvents(o: nat -> Answer, n: nat, outs: seq<seq<byte>>): seq<Event>
  {
    [Cs(false), MisoLow] + Exchanges(o, n, outs) + [Cs(true)]
  }

  /** The bus recorded one frame sending outs after trace0, from exchange n on. */
  ghost predicate RecordedFrame(bus: Bus, trace0: seq<Event>, n: nat, outs: seq<seq<byte>>)
    reads bus
  {
    && bus.trace == trace0 + FrameEvents(bus.oracle, n, outs)
    && bus.count == n + |Exchanges(bus.oracle, n, outs)|
  }

  /** The byte a single-register read starting at exchange n returns: the
      answer to the dummy byte if both exchanges went through, else 0. */
  ghost function ReadValue(o: nat -> Answer, n: nat): byte
  {
    if !o(n).Fault? && !o(n + 1).Fault? then Fill(o(n + 1), 1)[0] else 0
  }

  /** A single-register read gives a non-zero value only from a delivered
      frame: a frame cut off at either exchange reads as 0, and a delivered
      one reads the first byte the transport answered to the dummy byte. */
  lemma ReadValueDelivered(o: nat -> Answer, n: nat, a: byte)
    ensures !Delivered(o, n, [[a], [0x00]]) ==> ReadValue(o, n) == 0
    ensures Delivered(o, n, [[a], [0x00]]) && o(n + 1).Answer? && o(n + 1).miso != [] ==>
      ReadValue(o, n) == o(n + 1).miso[0]
  {
    if !o(n).Fault? && !o(n + 1).Fault? {
      assert Delivered(o, n, [[a], [0x00]]);
    }
  }

  /** One buffer per data byte. */
  function Singles(data: seq<byte>): (outs: seq<seq<byte>>)
    ensures |outs| == |data|
    decreases |data|
  {
    if data == [] then [] else [[data[0]]] + Singles(data[1..])
  }

  /** The buffers of a write burst: the header, then one exchange per data byte. */
  function BurstOuts(header: byte, data: seq<byte>): seq<seq<byte>>
  {
    [[header]] + Singles(data)
  }

  /** For a register address below 0x40, the header's top two bits carry the
      access kind (0x80 single read, 0xC0 burst read, 0x40 burst write) and
      its low six bits the address itself. */
  lemma HeaderFlags(addr: byte)
    requires addr < 0x40
    ensures (addr | READSINGLE) & 0xC0 == 0x80 && (addr | READSINGLE) & 0x3F == addr
    ensures (addr | READBURST) & 0xC0 == 0xC0 && (addr | READBURST) & 0x3F == addr
    ensures (addr | WRITEBURST) & 0xC0 == 0x40 && (addr | WRITEBURST) & 0x3F == addr
  {
  }

  /** The exchanges actually made are a prefix of outs, each tagged with the
      transport's verdict; all but the last succeeded; a shorter prefix ends in a
      failure; and the frame delivered exactly when nothing was cut off. */
  lemma ExchangesPrefix(o: nat -> Answer, n: nat, outs: seq<seq<byte>>)
    ensures var es := Exchanges(o, n, outs);
      && |es| <= |outs| && (es == [] <==> outs == [])
      && (forall i :: 0 <= i < |es| ==> es[i] == Xfer(outs[i], !o(n + i).Fault?))
      && (forall k :: n <= k < n + |es| - 1 ==> !o(k).Fault?)
      && (|es| < |outs| ==> o(n + |es| - 1).Fault?)
      && (Delivered(o, n, outs) <==> |es| == |outs| && forall e :: e in es ==> e.ok)
  {
    ExchangesShape(o, n, outs);
    var es := Exchanges(o, n, outs);
    if Delivered(o, n, outs) && outs != [] {
      assert !o(n + |es| - 1).Fault?;
    }
    if |es| == |outs| && forall e :: e in es ==> e.ok {
      forall k | n <= k < n + |outs| ensures !o(k).Fault? {
        assert es[k - n] in es;
      }
    }
  }

  /** The shape half of ExchangesPrefix, by induction on outs. */
  lemma {:induction false} ExchangesShape(o: nat -> Answer, n: nat, outs: seq<seq<byte>>)
    ensures var es := Exchanges(o, n, outs);
      && |es| <= |outs| && (es == [] <==> outs == [])
      && (forall i :: 0 <= i < |es| ==> es[i] == Xfer(outs[i], !o(n + i).Fault?))
      && (forall k :: n <= k < n + |es| - 1 ==> !o(k).Fault?)
      && (|es| < |outs| ==> o(n + |es| - 1).Fault?)
    decreases |outs|
  {
    if outs != [] && !o(n).Fault? {
      ExchangesShape(o, n + 1, outs[1..]);
      var es := Exchanges(o, n, outs);
      assert es == [Xfer(outs[0], true)] + Exchanges(o, n + 1, outs[1..]);
      forall i | 0 <= i < |es| ensures es[i] == Xfer(outs[i], !o(n + i).Fault?) {
        if i > 0 { assert es[i] == Exchanges(o, n + 1, outs[1..])[i - 1]; }
      }
    }
  }

  /** Each frame starts with chip-select active, then waits for MISO low,
      makes only exchanges after that, and ends with chip-select inactive. */
  lemma FrameShape(o: nat -> Answer, n: nat, outs: seq<seq<byte>>)
    ensures var f := FrameEvents(o, n, outs);
      && |f| >= 3 && f[0] == Cs(false) && f[1] == MisoLow && f[|f| - 1] == Cs(true)
      && forall i :: 2 <= i < |f| - 1 ==> f[i].Xfer?
  {
    ExchangesPrefix(o, n, outs);
  }

  /** Regrouping a transcript built frame by frame. */
  lemma Regroup(t: seq<Event>, a: seq<Event>, b: seq<Event>)
    ensures t + a + b == t + (a + b)
  {
  }

  /** The exchange of a one-buffer frame, spelled out. */
  lemma ExchangesOne(o: nat -> Answer, n: nat, x: seq<byte>)
    ensures Exchanges(o, n, [x]) == [Xfer(x, !o(n).Fault?)]
  {
    assert [x][1..] == [];
  }

  /** The exchanges of a two-buffer frame, spelled out. */
  lemma ExchangesTwo(o: nat -> Answer, n: nat, x: seq<byte>, y: seq<byte>)
    ensures Exchanges(o, n, [x, y]) ==
      if o(n).Fault? then [Xfer(x, false)] else [Xfer(x, true), Xfer(y, !o(n + 1).Fault?)]
  {
    assert [x, y][1..] == [y];
    if !o(n).Fault? {
      assert [y][1..] == [];
      assert Exchanges(o, n + 2, []) == [];
      assert Exchanges(o, n + 1, [y]) == [Xfer(y, !o(n + 1).Fault?)];
    }
  }

  /** The exchanges of burst data bytes that all went through. */
  ghost function Sent(data: seq<byte>): (es: seq<Event>)
    ensures |es| == |data|
  {
    seq(|data|, j requires 0 <= j < |data| => Xfer([data[j]], true))
  }

  lemma SentSnoc(t: seq<Event>, data: seq<byte>, i: nat)
    requires i < |data|
    ensures t + Sent(data[..i]) + [Xfer([data[i]], true)] == t + Sent(data[..i + 1])
  {
  }

  /** Data bytes whose exchanges all succeed are sent one per exchange. */
  lemma {:induction false} SinglesDelivered(o: nat -> Answer, m: nat, data: seq<byte>)
    requires forall k :: m <= k < m + |data| ==> !o(k).Fault?
    ensures Exchanges(o, m, Singles(data)) == Sent(data)
    decreases |data|
  {
    if data != [] {
      assert Singles(data)[1..] == Singles(data[1..]);
      SinglesDelivered(o, m + 1, data[1..]);
      assert Sent(data) == [Xfer([data[0]], true)] + Sent(data[1..]);
    }
  }

  /** A data exchange that fails after j good ones ends the exchanges. */
  lemma {:induction false} SinglesCut(o: nat -> Answer, m: nat, data: seq<byte>, j: nat)
    requires j < |data|
    requires forall k :: m <= k < m + j ==> !o(k).Fault?
    requires o(m + j).Fault?
    ensures Exchanges(o, m, Singles(data)) == Sent(data[..j]) + [Xfer([data[j]], false)]
    decreases j
  {
    assert Singles(data)[1..] == Singles(data[1..]);
    if j > 0 {
      SinglesCut(o, m + 1, data[1..], j - 1);
      assert data[1..][..j - 1] == data[1..j];
      assert Sent(data[..j]) == [Xfer([data[j]], true)][..0] + [Xfer([data[0]], true)] + Sent(data[1..j]);
    }
  }

  /** The transcript of a burst whose header exchange failed. */
  lemma BurstHeaderFailed(o: nat -> Answer, n: nat, h: byte, data: seq<byte>, t0: seq<Event>, t: seq<Event>)
    requires o(n).Fault?
    requires t == t0 + [Cs(false)] + [MisoLow] + [Xfer([h], false)] + [Cs(true)]
    ensures t == t0 + FrameEvents(o, n, BurstOuts(h, data))
    ensures |Exchanges(o, n, BurstOuts(h, data))| == 1 && !Delivered(o, n, BurstOuts(h, data))
    ensures Landed(o, n, data) == 0
  {
  }

  /** The transcript of a burst cut off by a failed data exchange. */
  lemma BurstCut(o: nat -> Answer, n: nat, h: byte, data: seq<byte>, i: nat, t0: seq<Event>, t: seq<Event>)
    requires i < |data|
    requires forall k :: n <= k < n + 1 + i ==> !o(k).Fault?
    requires o(n + 1 + i).Fault?
    requires t == t0 + [Cs(false)] + [MisoLow] + [Xfer([h], true)] + Sent(data[..i]) + [Xfer([data[i]], false)] + [Cs(true)]
    ensures t == t0 + FrameEvents(o, n, BurstOuts(h, data))
    ensures |Exchanges(o, n, BurstOuts(h, data))| == i + 2 && !Delivered(o, n, BurstOuts(h, data))
    ensures Landed(o, n, data) == i
  {
    assert BurstOuts(h, data)[1..] == Singles(data);
    SinglesCut(o, n + 1, data, i);
    StreakBounds(o, n + 1, data);
  }

  /** The transcript of a burst whose every exchange went through. */
  lemma BurstAll(o: nat -> Answer, n: nat, h: byte, data: seq<byte>, t0: seq<Event>, t: seq<Event>)
    requires forall k :: n <= k < n + 1 + |data| ==> !o(k).Fault?
    requires t == t0 + [Cs(false)] + [MisoLow] + [Xfer([h], true)] + Sent(data[..|data|]) + [Cs(true)]
    ensures t == t0 + FrameEvents(o, n, BurstOuts(h, data))
    ensures |Exchanges(o, n, BurstOuts(h, data))| == |data| + 1 && Delivered(o, n, BurstOuts(h, data))
    ensures Landed(o, n, data) == |data|
  {
    assert BurstOuts(h, data)[1..] == Singles(data);
    assert data[..|data|] == data;
    SinglesDelivered(o, n + 1, data);
    StreakBounds(o, n + 1, data);
  }

  /** The number of data bytes, from exchange m on, that go through before
      the first failed exchange. */
  ghost function Streak(o: nat -> Answer, m: nat, data: seq<byte>): (j: nat)
    ensures j <= |data|
    decreases |data|
  {
    if data == [] || o(m).Fault? then 0 else 1 + Streak(o, m + 1, data[1..])
  }

  /** The data bytes of a write burst starting at exchange n that reached the
      chip: none when the header exchange failed, otherwise those before the
      first failed data exchange. */
  ghost function Landed(o: nat -> Answer, n: nat, data: seq<byte>): (k: nat)
    ensures k <= |data|
  {
    if o(n).Fault? then 0 else Streak(o, n + 1, data)
  }

  /** The streak's exchanges all went through, and the one after it, if any
      data is left, failed. */
  lemma {:induction false} StreakBounds(o: nat -> Answer, m: nat, data: seq<byte>)
    ensures forall k :: m <= k < m + Streak(o, m, data) ==> !o(k).Fault?
    ensures Streak(o, m, data) < |data| ==> o(m + Streak(o, m, data)).Fault?
    decreases |data|
  {
    if data != [] && !o(m).Fault? {
      StreakBounds(o, m + 1, data[1..]);
    }
  }

  /** A write burst is delivered exactly when its header went through and
      every data byte landed; a burst that was cut off made one exchange
      more than the header and the bytes that landed, or only the header
      exchange when that failed. */
  lemma LandedExchanges(o: nat -> Answer, n: nat, h: byte, data: seq<byte>)
    ensures Delivered(o, n, BurstOuts(h, data)) <==> !o(n).Fault? && Landed(o, n, data) == |data|
    ensures !Delivered(o, n, BurstOuts(h, data)) ==>
      |Exchanges(o, n, BurstOuts(h, data))| == if o(n).Fault? then 1 else Landed(o, n, data) + 2
  {
    var outs := BurstOuts(h, data);
    assert outs[1..] == Singles(data);
    StreakBounds(o, n + 1, data);
    if o(n).Fault? {
      assert !Delivered(o, n, outs) by {
        assert n <= n < n + |outs|;
      }
    } else if Landed(o, n, data) == |data| {
      SinglesDelivered(o, n + 1, data);
      assert Delivered(o, n, outs) by {
        forall k | n <= k < n + |outs| ensures !o(k).Fault? {
          if k > n {
            assert n + 1 <= k < n + 1 + Streak(o, n + 1, data);
          }
        }
      }
    } else {
      var j := Landed(o, n, data);
      SinglesCut(o, n + 1, data, j);
      assert !Delivered(o, n, outs) by {
        assert n <= n + 1 + j < n + |outs|;
      }
    }
  }

  /** A burst cut off after i data bytes leaves exactly the bytes that landed. */
  lemma CutStore(o: nat -> Answer, n: nat, regs: map<nat, byte>, addr: byte, data: seq<byte>, i: nat)
    requires i <= |data| && Landed(o, n, data) == i
    ensures addr & 0x80 == 0 ==>
      BurstChip(regs, addr, data, i).regs == BurstStore(regs, (addr & 0x3F) as nat, data[..Landed(o, n, data)])
  {
  }

  /** The chip during a burst with header addr, after i data bytes. */
  ghost function BurstChip(regs: map<nat, byte>, addr: byte, data: seq<byte>, i: nat): ChipState
    requires i <= |data|
  {
    if addr & 0x80 != 0 then ChipState(regs, Reading)
    else ChipState(BurstStore(regs, (addr & 0x3F) as nat, data[..i]), Writing((addr & 0x3F) as nat + i, true))
  }

  lemma BurstChipStart(regs: map<nat, byte>, addr: byte, data: seq<byte>)
    ensures Clock(ChipState(regs, AwaitHeader), addr | WRITEBURST) == BurstChip(regs, addr, data, 0)
  {
    assert data[..0] == [];
  }

  lemma BurstChipStep(regs: map<nat, byte>, addr: byte, data: seq<byte>, i: nat)
    requires i < |data|
    ensures Clock(BurstChip(regs, addr, data, i), data[i]) == BurstChip(regs, addr, data, i + 1)
  {
    if addr & 0x80 == 0 {
      BurstByte(regs, (addr & 0x3F) as nat, data, i);
    }
  }

  method EnableCS(d: Device)
    modifies d.bus
    ensures d.bus.trace == old(d.bus.trace) + [Cs(false)] && d.bus.count == old(d.bus.count)
    ensures d.bus.chip == ChipState(old(d.bus.Regs()), AwaitHeader)
  {
    d.bus.SetCs(false);
  }

  method DisableCS(d: Device)
    modifies d.bus
    ensures d.bus.trace == old(d.bus.trace) + [Cs(true)] && d.bus.count == old(d.bus.count)
    ensures d.bus.chip == ChipState(old(d.bus.Regs()), Released)
  {
    d.bus.SetCs(true);
  }

  /** Pulse chip-select, then strobe SRES; the strobe's error is returned. */
  method Reset(d: Device) returns (err: Option<Error>)
    modifies d.bus
    ensures var o, n := d.bus.oracle, old(d.bus.count);
      && RecordedFrame(d.bus, old(d.bus.trace) + [Cs(false), Cs(true)], n, [[SRES]])
      && (err.None? <==> !o(n).Fault?)
      && (err.Some? ==> err.value == Transport)
    ensures d.bus.Regs() == old(d.bus.Regs())
  {
    EnableCS(d);
    DisableCS(d);
    err := SpiStrobe(d, SRES);
  }

  /** Read one register: header addr|0x80, then one dummy 0x00 whose answer is the value. */
  method ReadSingleRegister(d: Device, addr: byte) returns (value: byte, err: Option<Error>)
    modifies d.bus
    ensures var o, n := d.bus.oracle, old(d.bus.count);
      && RecordedFrame(d.bus, old(d.bus.trace), n, [[addr | READSINGLE], [0x00]])
      && (err.None? <==> !o(n).Fault? && !o(n + 1).Fault?)
      && (err.Some? ==> err.value == Transport && value == 0)
      && (err.None? ==> value == Fill(o(n + 1), 1)[0])
      && value == ReadValue(o, n)
    ensures d.bus.Regs() == old(d.bus.Regs())
  {
    ClockAllSingle();
    ExchangesTwo(d.bus.oracle, d.bus.count, [addr | READSINGLE], [0x00]);
    var header := addr | READSINGLE;
    EnableCS(d);
    d.bus.AwaitMisoLow();
    var ok, received := d.bus.Tx([header]);
    if !ok {
      DisableCS(d);
      return 0, Some(Transport);
    }
    ok, received := d.bus.Tx([0x00]);
    if !ok {
      DisableCS(d);
      return 0, Some(Transport);
    }
    DisableCS(d);
    return received[0], None;
  }

  /** Read length consecutive registers: header addr|0xC0, then length dummy
      zero bytes in one exchange whose answers are the values. */
  method ReadBurstRegister(d: Device, addr: byte, length: nat) returns (data: seq<byte>, err: Option<Error>)
    modifies d.bus
    ensures var o, n := d.bus.oracle, old(d.bus.count);
      && RecordedFrame(d.bus, old(d.bus.trace), n, [[addr | READBURST], Zeros(length)])
      && (err.None? <==> !o(n).Fault? && !o(n + 1).Fault?)
      && (err.Some? ==> err.value == Transport && data == [])
      && (err.None? ==> data == Fill(o(n + 1), length) && |data| == length)
    ensures d.bus.Regs() == old(d.bus.Regs())
  {
    ClockAllSingle();
    ExchangesTwo(d.bus.oracle, d.bus.count, [addr | READBURST], Zeros(length));
    var header := addr | READBURST;
    EnableCS(d);
    d.bus.AwaitMisoLow();
    var ok, received := d.bus.Tx([header]);
    if !ok {
      DisableCS(d);
      return [], Some(Transport);
    }
    ghost var reading := d.bus.chip;
    ok, received := d.bus.Tx(Zeros(length));
    ClockAllReading(reading, Zeros(length));
    if !ok {
      DisableCS(d);
      return [], Some(Transport);
    }
    DisableCS(d);
    return received, None;
  }

  function Zeros(length: nat): (z: seq<byte>)
    ensures |z| == length && forall i :: 0 <= i < length ==> z[i] == 0
  {
    seq(length, _ => 0)
  }

  /** Write one register: the address unmodified, then the value. */
  method WriteSingleRegister(d: Device, addr: byte, value: byte) returns (err: Option<Error>)
    modifies d.bus
    ensures var o, n := d.bus.oracle, old(d.bus.count);
      && RecordedFrame(d.bus, old(d.bus.trace), n, [[addr], [value]])
      && (err.None? <==> !o(n).Fault? && !o(n + 1).Fault?)
      && (err.Some? ==> err.value == Transport)
    ensures d.bus.Regs() ==
      if err.None? && addr & 0x80 == 0 then Store(old(d.bus.Regs()), (addr & 0x3F) as nat, value)
      else old(d.bus.Regs())
  {
    ClockAllSingle();
    ExchangesTwo(d.bus.oracle, d.bus.count, [addr], [value]);
    EnableCS(d);
    d.bus.AwaitMisoLow();
    var ok, _ := d.bus.Tx([addr]);
    if !ok {
      DisableCS(d);
      return Some(Transport);
    }
    var delivered, _ := d.bus.Tx([value]);
    if !delivered {
      DisableCS(d);
      return Some(Transport);
    }
    DisableCS(d);
    return None;
  }

  /** Send one command strobe: a single byte and no data phase. */
  method SpiStrobe(d: Device, strobe: byte) returns (err: Option<Error>)
    modifies d.bus
    ensures var o, n := d.bus.oracle, old(d.bus.count);
      && RecordedFrame(d.bus, old(d.bus.trace), n, [[strobe]])
      && (err.None? <==> !o(n).Fault?)
      && (err.Some? ==> err.value == Transport)
    ensures d.bus.Regs() == old(d.bus.Regs())
  {
    ClockAllSingle();
    assert [[strobe]][1..] == [];
    EnableCS(d);
    d.bus.AwaitMisoLow();
    var ok, _ := d.bus.Tx([strobe]);
    if !ok {
      DisableCS(d);
      return Some(Transport);
    }
    DisableCS(d);
    return None;
  }

  /** Write a burst: header addr|0x40, then each data byte in its own exchange,
      stopping at the first failed exchange. */
  method WriteBurstRegister(d: Device, addr: byte, data: seq<byte>) returns (err: Option<Error>)
    modifies d.bus
    ensures var o, n := d.bus.oracle, old(d.bus.count);
      && RecordedFrame(d.bus, old(d.bus.trace), n, BurstOuts(addr | WRITEBURST, data))
      && (err.None? <==> Delivered(o, n, BurstOuts(addr | WRITEBURST, data)))
      && (err.Some? ==> err.value == Transport)
    ensures addr & 0x80 != 0 ==> d.bus.Regs() == old(d.bus.Regs())
    ensures addr & 0x80 == 0 && err.None? ==>
      d.bus.Regs() == BurstStore(old(d.bus.Regs()), (addr & 0x3F) as nat, data)
    ensures addr & 0x80 == 0 && err.Some? ==>
      d.bus.Regs() == BurstStore(old(d.bus.Regs()), (addr & 0x3F) as nat, data[..Landed(d.bus.oracle, old(d.bus.count), data)])
  {
    ClockAllSingle();
    ghost var o, n, t0, regs0 := d.bus.oracle, d.bus.count, d.bus.trace, d.bus.Regs();
    var header := addr | WRITEBURST;
    EnableCS(d);
    d.bus.AwaitMisoLow();
    var ok, _ := d.bus.Tx([header]);
    if !ok {
      DisableCS(d);
      BurstHeaderFailed(o, n, header, data, t0, d.bus.trace);
      assert data[..0] == [];
      return Some(Transport);
    }
    BurstChipStart(regs0, addr, data);
    var sent, all := SendBurstData(d, regs0, addr, data);
    DisableCS(d);
    if !all {
      BurstCut(o, n, header, data, sent, t0, d.bus.trace);
      CutStore(o, n, regs0, addr, data, sent);
      return Some(Transport);
    }
    BurstAll(o, n, header, data, t0, d.bus.trace);
    assert data[..|data|] == data;
    return None;
  }

  /** The data loop of WriteBurstRegister: one exchange per byte, stopping at
      the first that fails. Returns how many bytes went through before that,
      and whether all of them did. */
  method SendBurstData(d: Device, ghost regs0: map<nat, byte>, addr: byte, data: seq<byte>)
    returns (sent: nat, all: bool)
    requires d.bus.chip == BurstChip(regs0, addr, data, 0)
    modifies d.bus
    ensures var o, n := d.bus.oracle, old(d.bus.count);
      && sent <= |data| && (all <==> sent == |data|)
      && (forall k :: n <= k < n + sent ==> !o(k).Fault?)
      && d.bus.chip == BurstChip(regs0, addr, data, sent)
      && (all ==> d.bus.trace == old(d.bus.trace) + Sent(data[..sent]) && d.bus.count == n + sent)
      && (!all ==> o(n + sent).Fault? && d.bus.count == n + sent + 1
                   && d.bus.trace == old(d.bus.trace) + Sent(data[..sent]) + [Xfer([data[sent]], false)])
  {
    ClockAllSingle();
    ghost var o, n, t1 := d.bus.oracle, d.bus.count, d.bus.trace;
    assert data[..0] == [];
    for i := 0 to |data|
      invariant d.bus.trace == t1 + Sent(data[..i])
      invariant d.bus.count == n + i
      invariant forall k :: n <= k < n + i ==> !o(k).Fault?
      invariant d.bus.chip == BurstChip(regs0, addr, data, i)
    {
      var ok, _ := d.bus.Tx([data[i]]);
      if !ok {
        return i, false;
      }
      BurstChipStep(regs0, addr, data, i);
      SentSnoc(t1, data, i);
    }
    return |data|, true;
  }
}
