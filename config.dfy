/** The register setters: the MDMCFG2 sub-field setters, the CC-mode script,
    the frequency word, the PA table and the RX/TX state switches. */
module Config {
  import opened Registers
  import opened Hardware
  import opened Cc1101
  import opened Spi
  import opened Script

  // ---------------------------------------------------------------------------
  // MDMCFG2 sub-field setters

  /** The frame writing value to MDMCFG2 was recorded after trace0 from
      exchange n on; a failure is reported as a failed register write, and the
      register store takes the value only if the write went through. */
  ghost predicate Mdmcfg2Written(bus: Bus, trace0: seq<Event>, n: nat, regs0: map<nat, byte>, value: byte, err: Option<Error>)
    reads bus
  {
    && RecordedFrame(bus, trace0, n, [[MDMCFG2], [value]])
    && (err.None? <==> Delivered(bus.oracle, n, [[MDMCFG2], [value]]))
    && (err.Some? ==> err == Some(RegisterWrite(Transport)))
    && bus.Regs() == if err.None? then regs0[MDMCFG2 as nat := value] else regs0
  }

  /** Write the MDMCFG2 byte packed from the stored sub-fields. */
  method WriteMdmcfg2(d: Device, g: Globals) returns (err: Option<Error>)
    modifies d.bus
    ensures Mdmcfg2Written(d.bus, old(d.bus.trace), old(d.bus.count), old(d.bus.Regs()), g.Packed(), err)
  {
    var e := WriteSingleRegister(d, MDMCFG2, g.Packed());
    if e.Some? {
      return Some(RegisterWrite(e.value));
    }
    return None;
  }

  /** SetSYNC_MODE: a choice 0..7 is stored as the sync-mode field itself and
      MDMCFG2 is rewritten; any other choice is rejected before anything is
      stored or sent. */
  method SetSyncMode(d: Device, g: Globals, choice: int) returns (err: Option<Error>)
    modifies d.bus, g
    ensures !(0 <= choice <= 7) ==> err == Some(InvalidSyncMode(choice)) && unchanged(g) && unchanged(d.bus)
    ensures 0 <= choice <= 7 ==>
      && g.syncMode == choice as byte
      && g.dcOff == old(g.dcOff) && g.modFormat == old(g.modFormat) && g.manchester == old(g.manchester)
      && g.ccMode == old(g.ccMode) && g.rxBandwidth == old(g.rxBandwidth) && g.marcState == old(g.marcState)
      && Mdmcfg2Written(d.bus, old(d.bus.trace), old(d.bus.count), old(d.bus.Regs()), g.Packed(), err)
  {
    if !(0 <= choice <= 7) {
      return Some(InvalidSyncMode(choice));
    }
    g.syncMode := choice as byte;
    err := WriteMdmcfg2(d, g);
  }

  /** The modulation-format field value of each modulation name SetModulation
      accepts. */
  function ModulationCode(modulation: string): (code: Option<byte>)
    ensures code.Some? <==> modulation in {"2FSK", "GFSK", "OOK", "4FSK", "MSK"}
    ensures code.Some? ==> code.value & 0x70 == code.value
  {
    match modulation
    case "2FSK" => Some(0x00)
    case "GFSK" => Some(0x10)
    case "OOK" => Some(0x30)
    case "4FSK" => Some(0x40)
    case "MSK" => Some(0x70)
    case _ => None
  }

  /** Distinct modulation names select distinct formats, and the packed
      MDMCFG2 byte carries the selected format unchanged in bits 6-4. */
  lemma ModulationPacked(m1: string, m2: string, dcOff: byte, manchester: byte, syncMode: byte)
    requires ModulationCode(m1).Some? && ModulationCode(m2).Some?
    ensures ModulationCode(m1) == ModulationCode(m2) ==> m1 == m2
    ensures Mdmcfg2(dcOff, ModulationCode(m1).value, manchester, syncMode) & 0x70 == ModulationCode(m1).value
  {
  }

  /** SetModulation: a known name stores its format and MDMCFG2 is rewritten;
      an unknown name is rejected before anything is stored or sent. */
  method SetModulation(d: Device, g: Globals, modulation: string) returns (err: Option<Error>)
    modifies d.bus, g
    ensures ModulationCode(modulation).None? ==> err == Some(UnsupportedModulation) && unchanged(g) && unchanged(d.bus)
    ensures ModulationCode(modulation).Some? ==>
      && g.modFormat == ModulationCode(modulation).value
      && g.dcOff == old(g.dcOff) && g.manchester == old(g.manchester) && g.syncMode == old(g.syncMode)
      && g.ccMode == old(g.ccMode) && g.rxBandwidth == old(g.rxBandwidth) && g.marcState == old(g.marcState)
      && Mdmcfg2Written(d.bus, old(d.bus.trace), old(d.bus.count), old(d.bus.Regs()), g.Packed(), err)
  {
    var code := ModulationCode(modulation);
    if code.None? {
      return Some(UnsupportedModulation);
    }
    g.modFormat := code.value;
    err := WriteMdmcfg2(d, g);
  }

  /** EnableManchester: set the Manchester field to 0x08 and rewrite MDMCFG2. */
  method EnableManchester(d: Device, g: Globals) returns (err: Option<Error>)
    modifies d.bus, g
    ensures g.manchester == 0x08
    ensures g.dcOff == old(g.dcOff) && g.modFormat == old(g.modFormat) && g.syncMode == old(g.syncMode)
    ensures g.ccMode == old(g.ccMode) && g.rxBandwidth == old(g.rxBandwidth) && g.marcState == old(g.marcState)
    ensures Mdmcfg2Written(d.bus, old(d.bus.trace), old(d.bus.count), old(d.bus.Regs()), g.Packed(), err)
  {
    g.manchester := 0x08;
    err := WriteMdmcfg2(d, g);
  }

  /** DisableManchester: clear the Manchester field and rewrite MDMCFG2. */
  method DisableManchester(d: Device, g: Globals) returns (err: Option<Error>)
    modifies d.bus, g
    ensures g.manchester == 0x00
    ensures g.dcOff == old(g.dcOff) && g.modFormat == old(g.modFormat) && g.syncMode == old(g.syncMode)
    ensures g.ccMode == old(g.ccMode) && g.rxBandwidth == old(g.rxBandwidth) && g.marcState == old(g.marcState)
    ensures Mdmcfg2Written(d.bus, old(d.bus.trace), old(d.bus.count), old(d.bus.Regs()), g.Packed(), err)
  {
    g.manchester := 0x00;
    err := WriteMdmcfg2(d, g);
  }

  /** EnableDCFilter: set the DC-filter-off field to 0x80 and rewrite MDMCFG2. */
  method EnableDCFilter(d: Device, g: Globals) returns (err: Option<Error>)
    modifies d.bus, g
    ensures g.dcOff == 0x80
    ensures g.modFormat == old(g.modFormat) && g.manchester == old(g.manchester) && g.syncMode == old(g.syncMode)
    ensures g.ccMode == old(g.ccMode) && g.rxBandwidth == old(g.rxBandwidth) && g.marcState == old(g.marcState)
    ensures Mdmcfg2Written(d.bus, old(d.bus.trace), old(d.bus.count), old(d.bus.Regs()), g.Packed(), err)
  {
    g.dcOff := 0x80;
    err := WriteMdmcfg2(d, g);
  }

  /** DisableDCFilter: clear the DC-filter-off field and rewrite MDMCFG2. */
  method DisableDCFilter(d: Device, g: Globals) returns (err: Option<Error>)
    modifies d.bus, g
    ensures g.dcOff == 0x00
    ensures g.modFormat == old(g.modFormat) && g.manchester == old(g.manchester) && g.syncMode == old(g.syncMode)
    ensures g.ccMode == old(g.ccMode) && g.rxBandwidth == old(g.rxBandwidth) && g.marcState == old(g.marcState)
    ensures Mdmcfg2Written(d.bus, old(d.bus.trace), old(d.bus.count), old(d.bus.Regs()), g.Packed(), err)
  {
    g.dcOff := 0x00;
    err := WriteMdmcfg2(d, g);
  }

  /** A sub-field setter leaves the bits of the other three fields of the
      written byte as the old stored fields give them. */
  lemma Mdmcfg2Others(dcOff: byte, modFormat: byte, manchester: byte, syncMode: byte, field: byte)
    ensures Mdmcfg2(dcOff, modFormat, manchester, field) & 0xF8 == Mdmcfg2(dcOff, modFormat, manchester, syncMode) & 0xF8
    ensures Mdmcfg2(dcOff, field, manchester, syncMode) & 0x8F == Mdmcfg2(dcOff, modFormat, manchester, syncMode) & 0x8F
    ensures Mdmcfg2(dcOff, modFormat, field, syncMode) & 0xF7 == Mdmcfg2(dcOff, modFormat, manchester, syncMode) & 0xF7
    ensures Mdmcfg2(field, modFormat, manchester, syncMode) & 0x7F == Mdmcfg2(dcOff, modFormat, manchester, syncMode) & 0x7F
  {
  }

  // ---------------------------------------------------------------------------
  // CC mode

  /** The five writes of setCCMode for the flag and the stored RX bandwidth
      offset. The MDMCFG4 value is a byte sum, so it wraps at 256. */
  function CcModeScript(state: bool, rxBandwidth: byte): (script: seq<Write>)
    ensures |script| == 5
  {
    if state then [(IOCFG2, 0x0B), (IOCFG0, 0x06), (PKTCTRL0, 0x05), (MDMCFG3, 0xF8), (MDMCFG4, 11 + rxBandwidth)]
    else [(IOCFG2, 0x0D), (IOCFG0, 0x0D), (PKTCTRL0, 0x32), (MDMCFG3, 0x93), (MDMCFG4, 7 + rxBandwidth)]
  }

  /** The index in the CC-mode script of the write to each register; 5 for
      the registers it does not write. */
  function CcModeIndex(a: nat): nat
  {
    match a
    case 0x00 => 0  case 0x02 => 1  case 0x08 => 2  case 0x11 => 3  case 0x10 => 4
    case _ => 5
  }

  /** setCCMode: record the flag, then issue the five writes, ignoring their errors. */
  method SetCCMode(d: Device, g: Globals, state: bool)
    modifies d.bus, g
    ensures g.ccMode == state
    ensures g.rxBandwidth == old(g.rxBandwidth) && g.marcState == old(g.marcState)
    ensures g.dcOff == old(g.dcOff) && g.modFormat == old(g.modFormat)
    ensures g.manchester == old(g.manchester) && g.syncMode == old(g.syncMode)
    ensures var r := Run(d.bus.oracle, old(d.bus.count), old(d.bus.Regs()), CcModeScript(state, old(g.rxBandwidth)));
      && d.bus.trace == old(d.bus.trace) + r.events
      && d.bus.count == r.count
      && d.bus.Regs() == r.regs
  {
    g.ccMode := state;
    WriteScript(d, CcModeScript(state, g.rxBandwidth));
  }

  /** Each write of the CC-mode script lands in its own configuration register. */
  lemma CcModePositioned(state: bool, rxBandwidth: byte)
    ensures Positioned(CcModeScript(state, rxBandwidth), CcModeIndex)
  {
  }

  /** With every write delivered, each register of the CC-mode script holds
      the value of its write. */
  lemma CcModeWritten(o: nat -> Answer, c: nat, regs: map<nat, byte>, state: bool, rxBandwidth: byte, i: nat)
    requires forall k :: c <= k < c + 10 ==> !o(k).Fault?
    requires i < 5
    ensures var script := CcModeScript(state, rxBandwidth);
      var r, a := Run(o, c, regs, script).regs, Target(script[i]);
      a.Some? && a.value in r && r[a.value] == script[i].1
  {
    RunDelivered(o, c, regs, CcModeScript(state, rxBandwidth));
    CcModePositioned(state, rxBandwidth);
    OverlayWritten(regs, CcModeScript(state, rxBandwidth), CcModeIndex, i);
  }

  /** With every write delivered, the CC-mode registers hold the values of
      the selected mode; MDMCFG4 holds the byte sum of the base and the
      bandwidth offset. */
  lemma CcModeRegisters(o: nat -> Answer, c: nat, regs: map<nat, byte>, state: bool, rxBandwidth: byte)
    requires forall k :: c <= k < c + 10 ==> !o(k).Fault?
    ensures var r := Run(o, c, regs, CcModeScript(state, rxBandwidth)).regs;
      && IOCFG2 as nat in r && r[IOCFG2 as nat] == (if state then 0x0B else 0x0D)
      && IOCFG0 as nat in r && r[IOCFG0 as nat] == (if state then 0x06 else 0x0D)
      && PKTCTRL0 as nat in r && r[PKTCTRL0 as nat] == (if state then 0x05 else 0x32)
      && MDMCFG3 as nat in r && r[MDMCFG3 as nat] == (if state then 0xF8 else 0x93)
      && MDMCFG4 as nat in r && r[MDMCFG4 as nat] == (if state then 11 else 7) + rxBandwidth
  {
    CcModeWritten(o, c, regs, state, rxBandwidth, 0);
    CcModeWritten(o, c, regs, state, rxBandwidth, 1);
    CcModeWritten(o, c, regs, state, rxBandwidth, 2);
    CcModeWritten(o, c, regs, state, rxBandwidth, 3);
    CcModeWritten(o, c, regs, state, rxBandwidth, 4);
  }

  /** The MDMCFG4 byte sum wraps at 256: an offset of 0xF8 on the base 11
      gives 3. */
  lemma CcModeBandwidthWraps()
    ensures CcModeScript(true, 0xF8)[4] == (MDMCFG4, 0x03)
  {
  }

  /** Whatever the transport does, setCCMode touches no register besides
      IOCFG2, IOCFG0, PKTCTRL0, MDMCFG3 and MDMCFG4. */
  lemma CcModeKeeps(o: nat -> Answer, c: nat, regs: map<nat, byte>, state: bool, rxBandwidth: byte, a: nat)
    requires a != IOCFG2 as nat && a != IOCFG0 as nat && a != PKTCTRL0 as nat
    requires a != MDMCFG3 as nat && a != MDMCFG4 as nat
    ensures var r := Run(o, c, regs, CcModeScript(state, rxBandwidth)).regs;
      (a in r) == (a in regs) && (a in regs ==> r[a] == regs[a])
  {
    CcModePositioned(state, rxBandwidth);
    PositionedKeeps(o, c, regs, CcModeScript(state, rxBandwidth), CcModeIndex, a);
  }

  // ---------------------------------------------------------------------------
  // Frequency

  /** The frequency word for a carrier of hz hertz: hz * 2^16 / 26 MHz,
      truncated, cut to 32 bits as the conversion to uint32 does. */
  function FrequencyWord(hz: nat): (word: nat)
    ensures word < 0x1_0000_0000
  {
    (hz * 65536 / 26000000) % 0x1_0000_0000
  }

  /** The FREQ2, FREQ1 and FREQ0 bytes of a frequency word: bits 23-16, 15-8
      and 7-0, each cut to a byte. */
  function Split(word: nat): (b: seq<byte>)
    ensures |b| == 3
  {
    [((word / 0x1_0000) % 256) as byte, ((word / 0x100) % 256) as byte, (word % 256) as byte]
  }

  /** The frequency word rebuilt from FREQ2, FREQ1 and FREQ0, most
      significant byte first. The three bytes occupy disjoint bit ranges, so
      the sum is the or of the shifted bytes. */
  function Join(b: seq<byte>): (word: nat)
    requires |b| == 3
    ensures word < 0x100_0000
  {
    b[0] as nat * 0x1_0000 + b[1] as nat * 0x100 + b[2] as nat
  }

  /** Dividing q * 256 + r by 256, for r below 256. */
  lemma Place(q: nat, r: nat)
    requires r < 256
    ensures (q * 256 + r) / 256 == q && (q * 256 + r) % 256 == r
  {
  }

  /** The low 24 bits of a word are its three low base-256 digits. */
  lemma Digits(word: nat)
    ensures word % 0x100_0000 == (word / 0x1_0000) % 256 * 0x1_0000 + (word / 0x100) % 256 * 0x100 + word % 256
  {
    var a, r1 := word % 256, word / 256;
    var b, r2 := r1 % 256, r1 / 256;
    var c, r3 := r2 % 256, r2 / 256;
    assert word == r1 * 256 + a;
    assert r1 == r2 * 256 + b;
    assert r2 == r3 * 256 + c;
    assert word == r3 * 0x100_0000 + (c * 0x1_0000 + b * 0x100 + a);
    assert word / 0x1_0000 == r2;
  }

  /** The digits of a number written with three base-256 digits. */
  lemma JoinDigits(x: nat, y: nat, z: nat)
    requires x < 256 && y < 256 && z < 256
    ensures var w := x * 0x1_0000 + y * 0x100 + z;
      (w / 0x1_0000) % 256 == x && (w / 0x100) % 256 == y && w % 256 == z
  {
    Place(x * 256 + y, z);
    Place(x, y);
    var w := x * 0x1_0000 + y * 0x100 + z;
    assert w == (x * 256 + y) * 256 + z;
    assert w / 0x1_0000 == (w / 0x100) / 0x100;
  }

  /** The three bytes of a split are the word's three low base-256 digits. */
  lemma SplitDigits(word: nat)
    ensures var b := Split(word);
      && b[0] as nat == (word / 0x1_0000) % 256
      && b[1] as nat == (word / 0x100) % 256
      && b[2] as nat == word % 256
  {
    ValueBack((word / 0x1_0000) % 256);
    ValueBack((word / 0x100) % 256);
    ValueBack(word % 256);
  }

  /** Splitting and rebuilding gives back the low 24 bits of the word, so
      every word below 2^24 survives the round trip. */
  lemma JoinSplit(word: nat)
    ensures Join(Split(word)) == word % 0x100_0000
    ensures word < 0x100_0000 ==> Join(Split(word)) == word
  {
    SplitDigits(word);
    Digits(word);
    if word < 0x100_0000 {
      Below(word);
    }
  }

  /** Three digits below 256 are determined by the number they write. */
  lemma DigitsUnique(x1: nat, y1: nat, z1: nat, x2: nat, y2: nat, z2: nat)
    requires x1 < 256 && y1 < 256 && z1 < 256 && x2 < 256 && y2 < 256 && z2 < 256
    requires x1 * 0x1_0000 + y1 * 0x100 + z1 == x2 * 0x1_0000 + y2 * 0x100 + z2
    ensures x1 == x2 && y1 == y2 && z1 == z2
  {
    JoinDigits(x1, y1, z1);
    JoinDigits(x2, y2, z2);
  }

  /** Bytes with the same value are the same byte. */
  lemma SameValue(a: byte, b: byte)
    requires a as nat == b as nat
    ensures a == b
  {
    ByteBack(a);
    ByteBack(b);
  }

  /** Two byte triples that rebuild the same word are equal. */
  lemma JoinInjective(b1: seq<byte>, b2: seq<byte>)
    requires |b1| == 3 && |b2| == 3 && Join(b1) == Join(b2)
    ensures b1 == b2
  {
    DigitsUnique(b1[0] as nat, b1[1] as nat, b1[2] as nat, b2[0] as nat, b2[1] as nat, b2[2] as nat);
    SameValue(b1[0], b2[0]);
    SameValue(b1[1], b2[1]);
    SameValue(b1[2], b2[2]);
  }

  /** A value below 2^24 is its own low 24 bits. */
  lemma Below(w: nat)
    requires w < 0x100_0000
    ensures w % 0x100_0000 == w
  {
  }

  /** Rebuilding and splitting gives back the three register bytes. */
  lemma SplitJoin(b: seq<byte>)
    requires |b| == 3
    ensures Split(Join(b)) == b
  {
    var w := Join(b);
    JoinSplit(w);
    Below(w);
    JoinInjective(Split(w), b);
  }

  /** For a carrier whose word fits the 24 bits of FREQ2..FREQ0, the word is
      not cut by the split, and the word rebuilt from the three bytes is the
      largest w with w * 26 MHz <= hz * 2^16: the rebuilt frequency lies at
      most one step of 26 MHz / 2^16 below the requested one. */
  lemma FrequencyRoundTrip(hz: nat)
    requires hz * 65536 < 0x100_0000 * 26000000
    ensures FrequencyWord(hz) < 0x100_0000
    ensures var w := Join(Split(FrequencyWord(hz)));
      w * 26000000 <= hz * 65536 < (w + 1) * 26000000
  {
    var q := hz * 65536 / 26000000;
    assert q * 26000000 <= hz * 65536 < (q + 1) * 26000000;
    assert q < 0x100_0000;
    assert FrequencyWord(hz) == q;
    JoinSplit(q);
  }

  /** 433.92 MHz gives the word 0x10B071 ... */
  lemma ExampleWord()
    ensures FrequencyWord(433_920_000) == 0x10B071
  {
    var scaled := 433_920_000 * 65536;
    assert scaled == 28_437_381_120_000;
    assert 26000000 * 0x10B071 <= scaled < 26000000 * (0x10B071 + 1);
    assert scaled / 26000000 == 0x10B071;
  }

  /** ... and that word is written as 16, 176, 113. */
  lemma ExampleBytes()
    ensures Split(0x10B071) == [16, 176, 113]
  {
    var b: seq<byte> := [16, 176, 113];
    assert Join(b) == 0x10B071;
    SplitJoin(b);
  }

  /** 433.92 MHz gives the word 0x10B071, written as 16, 176, 113. */
  lemma FrequencyExample()
    ensures FrequencyWord(433_920_000) == 0x10B071
    ensures Split(FrequencyWord(433_920_000)) == [16, 176, 113]
  {
    ExampleWord();
    ExampleBytes();
  }

  /** SetFrequency: the word's three bytes as one burst at FREQ2; the
      burst's error is returned. */
  method SetFrequency(d: Device, hz: nat) returns (err: Option<Error>)
    modifies d.bus
    ensures var o, n, freqBytes := d.bus.oracle, old(d.bus.count), Split(FrequencyWord(hz));
      var outs := BurstOuts(FREQ2 | WRITEBURST, freqBytes);
      && RecordedFrame(d.bus, old(d.bus.trace), n, outs)
      && (err.None? <==> Delivered(o, n, outs))
      && (err.Some? ==> err == Some(Transport))
      && (err.None? ==> d.bus.Regs() == BurstStore(old(d.bus.Regs()), FREQ2 as nat, freqBytes))
      && (err.Some? ==> d.bus.Regs() == BurstStore(old(d.bus.Regs()), FREQ2 as nat, freqBytes[..Landed(o, n, freqBytes)]))
  {
    var freqBytes := Split(FrequencyWord(hz));
    err := WriteBurstRegister(d, FREQ2, freqBytes);
  }

  /** A delivered frequency burst leaves FREQ2, FREQ1 and FREQ0 holding bytes
      that rebuild the word's low 24 bits. */
  lemma FrequencyStored(regs: map<nat, byte>, word: nat)
    ensures var r := BurstStore(regs, FREQ2 as nat, Split(word));
      && FREQ2 as nat in r && FREQ1 as nat in r && FREQ0 as nat in r
      && Join([r[FREQ2 as nat], r[FREQ1 as nat], r[FREQ0 as nat]]) == word % 0x100_0000
  {
    var b := Split(word);
    BurstStoreAt(regs, FREQ2 as nat, b, 0);
    BurstStoreAt(regs, FREQ2 as nat, b, 1);
    BurstStoreAt(regs, FREQ2 as nat, b, 2);
    var r := BurstStore(regs, FREQ2 as nat, b);
    assert [r[FREQ2 as nat], r[FREQ1 as nat], r[FREQ0 as nat]] == b;
    JoinSplit(word);
  }

  /** GetFrequency: a 3-byte burst read at FREQ2, rebuilt into the word; on
      error the word is 0. */
  method GetFrequency(d: Device) returns (word: nat, err: Option<Error>)
    modifies d.bus
    ensures var o, n, outs := d.bus.oracle, old(d.bus.count), [[FREQ2 | READBURST], Zeros(3)];
      && RecordedFrame(d.bus, old(d.bus.trace), n, outs)
      && (err.None? <==> Delivered(o, n, outs))
      && (err.Some? ==> err == Some(Transport) && word == 0)
      && (err.None? ==> word == Join(Fill(o(n + 1), 3)))
    ensures d.bus.Regs() == old(d.bus.Regs())
  {
    var freqs, e := ReadBurstRegister(d, FREQ2, 3);
    if e.Some? {
      return 0, e;
    }
    return Join(freqs), None;
  }

  // ---------------------------------------------------------------------------
  // Transmit power

  /** The PA table SetTxPower writes: the setting at index 0, zeros after. */
  function PaTable(power: byte): (table: seq<byte>)
    ensures |table| == 8 && table[0] == power
    ensures forall i :: 1 <= i < 8 ==> table[i] == 0
  {
    [power, 0, 0, 0, 0, 0, 0, 0]
  }

  /** SetTxPower: burst the PA table at PATABLE; only if that went through,
      write FREND0 = 0x10 and return that write's error. The PA table is not
      part of the configuration register store. */
  method SetTxPower(d: Device, power: byte) returns (err: Option<Error>)
    modifies d.bus
    ensures var o, n, t := d.bus.oracle, old(d.bus.count), old(d.bus.trace);
      var outs := BurstOuts(PATABLE | WRITEBURST, PaTable(power));
      && (!Delivered(o, n, outs) ==>
            && RecordedFrame(d.bus, t, n, outs)
            && err == Some(Transport)
            && d.bus.Regs() == old(d.bus.Regs()))
      && (Delivered(o, n, outs) ==>
            && RecordedFrame(d.bus, t + FrameEvents(o, n, outs), n + 9, [[FREND0], [0x10]])
            && (err.None? <==> Delivered(o, n + 9, [[FREND0], [0x10]]))
            && (err.Some? ==> err == Some(Transport))
            && d.bus.Regs() == if err.None? then old(d.bus.Regs())[FREND0 as nat := 0x10] else old(d.bus.Regs()))
  {
    ghost var o, n, regs0 := d.bus.oracle, d.bus.count, d.bus.Regs();
    var paTable := PaTable(power);
    ExchangesPrefix(o, n, BurstOuts(PATABLE | WRITEBURST, paTable));
    err := WriteBurstRegister(d, PATABLE, paTable);
    if err.Some? {
      BurstStoreAbove(regs0, PATABLE as nat, paTable[..Landed(o, n, paTable)]);
      return;
    }
    BurstStoreAbove(regs0, PATABLE as nat, paTable);
    err := WriteSingleRegister(d, FREND0, 0x10);
  }

  // ---------------------------------------------------------------------------
  // RX / TX switches

  /** What a MARCSTATE poll leaves behind: its events, the exchange counter,
      the last state read and the number of reads. */
  datatype Poll = Poll(events: seq<Event>, count: nat, state: byte, attempts: nat)

  /** Poll MARCSTATE from exchange n on until state equals target, reading at
      most fuel times; nothing is read when state already equals target. A
      failed read gives state 0 and the poll goes on. */
  ghost function Polled(o: nat -> Answer, n: nat, state: byte, target: byte, fuel: nat): Poll
    decreases fuel
  {
    if state == target || fuel == 0 then Poll([], n, state, 0)
    else
      var rest := Polled(o, n + |Exchanges(o, n, [[MARCSTATE | READSINGLE], [0x00]])|, ReadValue(o, n), target, fuel - 1);
      Poll(FrameEvents(o, n, [[MARCSTATE | READSINGLE], [0x00]]) + rest.events, rest.count, rest.state, rest.attempts + 1)
  }

  /** A poll stops only at the target or when the fuel is used up, never
      reads more than the fuel allows, and reads nothing when the state
      already holds the target. */
  lemma {:induction false} PollBound(o: nat -> Answer, n: nat, state: byte, target: byte, fuel: nat)
    ensures var p := Polled(o, n, state, target, fuel);
      && p.attempts <= fuel
      && (p.state == target || p.attempts == fuel)
      && (state == target ==> p.attempts == 0 && p.events == [] && p.count == n)
    decreases fuel
  {
    if state != target && fuel > 0 {
      PollBound(o, n + |Exchanges(o, n, [[MARCSTATE | READSINGLE], [0x00]])|, ReadValue(o, n), target, fuel - 1);
    }
  }

  /** The loop of SetRx and SetTx: read MARCSTATE into the shared state until
      it equals target; reports whether it did within fuel reads. */
  method AwaitState(d: Device, g: Globals, target: byte, fuel: nat) returns (settled: bool)
    modifies d.bus, g
    ensures var p := Polled(d.bus.oracle, old(d.bus.count), old(g.marcState), target, fuel);
      && d.bus.trace == old(d.bus.trace) + p.events
      && d.bus.count == p.count
      && g.marcState == p.state
      && settled == (p.state == target)
    ensures d.bus.Regs() == old(d.bus.Regs())
    ensures g.ccMode == old(g.ccMode) && g.rxBandwidth == old(g.rxBandwidth)
    ensures g.dcOff == old(g.dcOff) && g.modFormat == old(g.modFormat)
    ensures g.manchester == old(g.manchester) && g.syncMode == old(g.syncMode)
  {
    ghost var o, t0 := d.bus.oracle, d.bus.trace;
    ghost var whole := Polled(o, d.bus.count, g.marcState, target, fuel);
    var f := fuel;
    while g.marcState != target && f > 0
      invariant t0 + whole.events == d.bus.trace + Polled(o, d.bus.count, g.marcState, target, f).events
      invariant whole.count == Polled(o, d.bus.count, g.marcState, target, f).count
      invariant whole.state == Polled(o, d.bus.count, g.marcState, target, f).state
      invariant d.bus.Regs() == old(d.bus.Regs())
      invariant g.ccMode == old(g.ccMode) && g.rxBandwidth == old(g.rxBandwidth)
      invariant g.dcOff == old(g.dcOff) && g.modFormat == old(g.modFormat)
      invariant g.manchester == old(g.manchester) && g.syncMode == old(g.syncMode)
      decreases f
    {
      ghost var t, n, before := d.bus.trace, d.bus.count, g.marcState;
      var state, _ := ReadSingleRegister(d, MARCSTATE);
      PollStep(o, n, before, target, f, t, d.bus.trace, d.bus.count, state);
      g.marcState := state;
      f := f - 1;
    }
    assert d.bus.trace + [] == d.bus.trace;
    settled := g.marcState == target;
  }

  /** One more read moves the remaining poll one step on: from trace t and
      exchange n to the trace t2 and exchange n2 the read left, with the
      state v it returned. */
  lemma PollStep(o: nat -> Answer, n: nat, state: byte, target: byte, fuel: nat,
                 t: seq<Event>, t2: seq<Event>, n2: nat, v: byte)
    requires state != target && fuel > 0
    requires t2 == t + FrameEvents(o, n, [[MARCSTATE | READSINGLE], [0x00]])
    requires n2 == n + |Exchanges(o, n, [[MARCSTATE | READSINGLE], [0x00]])|
    requires v == ReadValue(o, n)
    ensures t + Polled(o, n, state, target, fuel).events == t2 + Polled(o, n2, v, target, fuel - 1).events
    ensures Polled(o, n, state, target, fuel).count == Polled(o, n2, v, target, fuel - 1).count
    ensures Polled(o, n, state, target, fuel).state == Polled(o, n2, v, target, fuel - 1).state
  {
    var frame, rest := FrameEvents(o, n, [[MARCSTATE | READSINGLE], [0x00]]), Polled(o, n2, v, target, fuel - 1);
    assert Polled(o, n, state, target, fuel) == Poll(frame + rest.events, rest.count, rest.state, rest.attempts + 1);
    assert t + (frame + rest.events) == t + frame + rest.events;
  }

  /** SetRx: strobe SRX, ignoring its error, then poll until MARCSTATE reads RX. */
  method SetRx(d: Device, g: Globals, fuel: nat) returns (settled: bool)
    modifies d.bus, g
    ensures var o, n := d.bus.oracle, old(d.bus.count);
      var p := Polled(o, n + 1, old(g.marcState), MARCSTATE_RX, fuel);
      && d.bus.trace == old(d.bus.trace) + FrameEvents(o, n, [[SRX]]) + p.events
      && d.bus.count == p.count
      && g.marcState == p.state
      && settled == (p.state == MARCSTATE_RX)
    ensures d.bus.Regs() == old(d.bus.Regs())
    ensures g.ccMode == old(g.ccMode) && g.rxBandwidth == old(g.rxBandwidth)
    ensures g.dcOff == old(g.dcOff) && g.modFormat == old(g.modFormat)
    ensures g.manchester == old(g.manchester) && g.syncMode == old(g.syncMode)
  {
    ExchangesOne(d.bus.oracle, d.bus.count, [SRX]);
    var _ := SpiStrobe(d, SRX);
    settled := AwaitState(d, g, MARCSTATE_RX, fuel);
  }

  /** SetTx: strobe STX, ignoring its error, then poll until MARCSTATE reads TX. */
  method SetTx(d: Device, g: Globals, fuel: nat) returns (settled: bool)
    modifies d.bus, g
    ensures var o, n := d.bus.oracle, old(d.bus.count);
      var p := Polled(o, n + 1, old(g.marcState), MARCSTATE_TX, fuel);
      && d.bus.trace == old(d.bus.trace) + FrameEvents(o, n, [[STX]]) + p.events
      && d.bus.count == p.count
      && g.marcState == p.state
      && settled == (p.state == MARCSTATE_TX)
    ensures d.bus.Regs() == old(d.bus.Regs())
    ensures g.ccMode == old(g.ccMode) && g.rxBandwidth == old(g.rxBandwidth)
    ensures g.dcOff == old(g.dcOff) && g.modFormat == old(g.modFormat)
    ensures g.manchester == old(g.manchester) && g.syncMode == old(g.syncMode)
  {
    ExchangesOne(d.bus.oracle, d.bus.count, [STX]);
    var _ := SpiStrobe(d, STX);
    settled := AwaitState(d, g, MARCSTATE_TX, fuel);
  }
}
