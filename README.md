# CC1101 driver model

A Dafny model of a Go driver for the Texas Instruments CC1101 sub-GHz
transceiver, with proofs about it. The driver talks to the chip over SPI.
It uses a chip-select output and the MISO line as a ready signal.

What the driver does:

- **SPI framing.** It frames single-register reads and writes, burst reads
  and writes, and command strobes.
- **Package-level state.** It keeps the MDMCFG2 sub-fields, the CC-mode flag,
  the RX bandwidth offset and the last MARCSTATE in package-level variables.
- **Setters and state switches.** It packs the sub-fields into MDMCFG2 on
  every setter. It switches the chip into RX or TX by polling MARCSTATE.
- **Configuration scripts.** It configures OOK operation through fixed
  scripts of register writes.
- **Packet sending.** It sends a packet by loading the TX FIFO with a
  length-prefixed payload, strobing STX and polling until the chip leaves
  the transmit states.

How the model is built:

- **Hardware** (`hardware.dfy`):
  - **The bus.** The transport is a `Bus` object that records every
    observable event in a transcript: chip-select changes, the wait for MISO
    low, and each exchange with the verdict the transport gave.
  - **Transport answers.** Whether an exchange fails, and the bytes a read
    gets back, come from a fixed oracle. The oracle is indexed by the number
    of exchanges made so far, so every property holds for every behaviour of
    the transport.
  - **The chip's registers.** A ghost chip automaton follows the transcript
    byte by byte. It maintains the store of configuration registers
    (addresses below 0x30) that delivered write frames fill in.
- **Specification functions** (`spi.dfy`, `script.dfy`, `config.dfy`,
  `packet.dfy`). Each operation is a method that changes the bus. It is proved
  against a ghost function that gives the events, the exchange count and the
  register store it must produce. Lemmas about those functions state what the
  driver promises.
- **State** (`cc1101.dfy`). The package-level variables are fields of one
  `Globals` object that the setters update. The device handle `Device` holds
  the bus.
- **Unbounded loops.** The source has eight loops without a bound. Three
  are MARCSTATE polls: in SetRx, in SetTx and in SendData. In the model they
  take a `fuel` bound and report whether they finished within it. The other
  five are the busy-waits for MISO low in the five SPI primitives. Each of
  those is one abstract `MisoLow` event.

Modules: `Registers` (addresses and constants), `Hardware` (bus and chip),
`Cc1101` (errors, MDMCFG2 packing, globals, device), `Spi`, `Script`
(register-write scripts), `Config`, `Ook`, `Packet`, `Connection`.

## Model

| member | source | states |
|---|---|---|
| Spi.HeaderFlags | cc1101.go:8-10 | For an address below 0x40, the read-single, read-burst and write-burst flags set the header's top two bits to 0x80, 0xC0 and 0x40 and leave the address in the low six bits |
| Cc1101.Globals.constructor | cc1101.go:13-29 | At start the CC-mode flag is off, the bandwidth offset, MARCSTATE and the DC-off, modulation and Manchester fields are 0, and the sync mode is 0x02, so the packed MDMCFG2 byte is 0x02 |
| Cc1101.Device.constructor | cc1101.go:37-45 | New keeps the given bus and makes no traffic on it |
| Hardware.Bus.Tx | cc1101.go:31-33 | One exchange: it succeeds exactly when the transport does not fail; the receive buffer holds the transport's bytes over zeros; the event is recorded and the exchange count goes up by one |
| Hardware.Bus.SetCs | cc1101.go:35 | Driving chip-select appends that level to the transcript and makes no exchange |
| Hardware.Bus.AwaitMisoLow | spi.go:36-38 | The wait for MISO low is one recorded event; it makes no exchange and leaves the chip as it was |
| Hardware.Fill | spi.go:53-62 | A receive buffer has the requested length, and it stays all zeros when the exchange failed |
| Connection.IsConnected | cc1101.go:47-54 | Asserts chip-select, then reads register 0x31 in a frame with header 0xB1; reports the chip present exactly when both exchanges went through and the byte read is non-zero |
| Spi.EnableCS | spi.go:7-9 | Drives chip-select low (active), appends that event, makes no exchange, and the chip starts a frame |
| Spi.DisableCS | spi.go:10-12 | Drives chip-select high, appends that event, makes no exchange, and the chip releases the frame |
| Spi.Reset | spi.go:15-28 | A chip-select pulse, then an SRES strobe frame; the reset fails exactly when the strobe's exchange fails; no register changes |
| Spi.ReadSingleRegister | spi.go:30-49 | The frame sends addr with bit 7 set, then a dummy 0x00; it succeeds iff both exchanges do; the value is the answer to the dummy byte, and 0 on error; no register changes |
| Spi.ReadBurstRegister | spi.go:51-69 | The frame sends addr with bits 7 and 6 set, then length zero bytes in one exchange; on success the data is the answer, of exactly length bytes; on error it is empty |
| Spi.WriteSingleRegister | spi.go:71-86 | The frame sends the address, then the value; it succeeds iff both exchanges do; a configuration register takes the value only when both went through and the address has no read flag |
| Spi.SpiStrobe | spi.go:88-99 | The frame sends one byte; the strobe fails exactly when that exchange fails; no register changes |
| Spi.WriteBurstRegister | spi.go:101-119 | The frame sends the header addr with bit 6 set, then each data byte in its own exchange, stopping at the first failure; on success the data lands at consecutive registers from addr; on failure exactly the bytes whose exchanges went through before the failing one have landed, and nothing else changes |
| Spi.SendBurstData | spi.go:111-116 | The data loop: one exchange per byte, stopping at the first failure; reports how many bytes went through, all of them exactly when none failed, and the chip has taken exactly those bytes |
| Spi.LandedExchanges | spi.go:101-119 | A burst is delivered exactly when the header and every data byte went through; a cut-off burst made one exchange if the header failed, otherwise the landed bytes plus the header plus the failing one |
| Spi.ReadValueDelivered | spi.go:39-48 | ReadValue, the byte a single-register read returns: a frame cut off at either exchange reads as 0; a delivered frame reads the first byte the transport answered to the dummy byte, so a non-zero value implies delivery |
| Spi.ExchangesPrefix | spi.go:101-119 | The exchanges of a frame are a prefix of the buffers to send, each tagged with the transport's verdict; all but the last succeeded; a cut-off frame ends in a failure; the frame delivered iff nothing was cut off and every exchange succeeded |
| Spi.FrameShape | spi.go:30-119 | Every frame starts with chip-select low and the MISO wait, ends with chip-select high, and has only exchanges in between |
| Cc1101.Mdmcfg2 | config.go:46 | The packed MDMCFG2 byte carries DC-off in bit 7, the modulation format in bits 6-4, Manchester in bit 3 and the sync mode in bits 2-0, each from its own field |
| Cc1101.Mdmcfg2Repack | config.go:46 | Packing a byte's own four fields gives back the byte, so the packing loses nothing within the masks |
| Config.Mdmcfg2Others | config.go:159-197 | Changing one sub-field leaves the other three fields of the packed byte as they were |
| Config.WriteMdmcfg2 | config.go:46-51 | Writes the byte packed from the stored fields to MDMCFG2; on failure it reports a wrapped register-write error and MDMCFG2 keeps its old value |
| Config.SetSyncMode | config.go:25-52 | A choice outside 0..7 is rejected with its value, with no state change and no traffic; otherwise the sync-mode field becomes the choice, the other fields stay as they were, and MDMCFG2 is written with the packed byte |
| Config.ModulationCode | config.go:56-69 | Exactly the five names 2FSK, GFSK, OOK, 4FSK and MSK have a code, and each code lies within the modulation-format bits |
| Config.ModulationPacked | config.go:56-71 | Distinct modulation names have distinct codes, and the packed MDMCFG2 byte carries the chosen code in bits 6-4 |
| Config.SetModulation | config.go:55-77 | An unsupported name is rejected with no state change and no traffic; otherwise the modulation field becomes the name's code and MDMCFG2 is written with the packed byte |
| Config.EnableManchester | config.go:159-167 | The Manchester field becomes 0x08, the other fields keep their values, and MDMCFG2 is written with the packed byte |
| Config.DisableManchester | config.go:169-177 | The Manchester field becomes 0x00, the other fields keep their values, and MDMCFG2 is written with the packed byte |
| Config.EnableDCFilter | config.go:179-187 | The DC-off field becomes 0x80, the other fields keep their values, and MDMCFG2 is written with the packed byte |
| Config.DisableDCFilter | config.go:189-197 | The DC-off field becomes 0x00, the other fields keep their values, and MDMCFG2 is written with the packed byte |
| Config.SetCCMode | config.go:8-23 | Records the flag, keeps every other field, then issues the five writes of the chosen mode in order, ignoring their errors |
| Config.CcModeScript | config.go:10-21 | Each CC mode is a script of exactly five writes: IOCFG2, IOCFG0, PKTCTRL0, MDMCFG3, MDMCFG4, whose values CcModeRegisters states |
| Config.CcModeRegisters | config.go:11-21 | With every write delivered, IOCFG2, IOCFG0, PKTCTRL0, MDMCFG3 and MDMCFG4 hold the values of the chosen mode; MDMCFG4 holds the base plus the bandwidth offset |
| Config.CcModeWritten | config.go:11-21 | With every write delivered, each register of the CC-mode script holds the value of its write |
| Config.CcModeBandwidthWraps | config.go:15 | The MDMCFG4 sum is a byte sum, so it wraps: an offset of 0xF8 on the base 11 gives 3 |
| Config.CcModeKeeps | config.go:11-21 | Whatever the transport does, setCCMode changes no register other than those five |
| Config.FrequencyWord | config.go:94 | The frequency word fits in 32 bits |
| Config.FrequencyRoundTrip | config.go:94-100 | For every carrier whose word fits the 24 bits of FREQ2..FREQ0, the split drops nothing, and the word read back converts to a frequency within one step (26 MHz / 2^16) below the carrier |
| Config.Split | config.go:96-100 | A word becomes exactly three bytes, FREQ2's first; Split and Join are inverse (JoinSplit, SplitJoin) |
| Config.JoinSplit | config.go:96-100 | Rebuilding the three frequency bytes gives the word's low 24 bits, and gives the word itself when it fits in 24 bits |
| Config.SplitJoin | config.go:206 | Splitting a word rebuilt from three bytes gives back those bytes |
| Config.JoinInjective | config.go:206 | Two byte triples that rebuild the same word are the same triple |
| Config.Join | config.go:206 | A word rebuilt from three bytes lies below 2^24 |
| Config.FrequencyExample | config.go:78-83 | 433.92 MHz gives the word 0x10B071, which splits into the bytes 16, 176, 113 |
| Config.SetFrequency | config.go:89-105 | The word's three bytes go out as one burst at FREQ2, and the burst's error is returned; on success FREQ2, FREQ1 and FREQ0 hold them; on failure exactly the bytes whose exchanges went through have landed, and no other register changes |
| Config.FrequencyStored | config.go:94-99 | After a delivered frequency burst, FREQ2, FREQ1 and FREQ0 rebuild the word's low 24 bits |
| Config.GetFrequency | config.go:198-209 | A 3-byte burst read at FREQ2 is rebuilt most significant byte first into the word; on error the word is 0 and the error is returned |
| Config.PaTable | config.go:127-136 | The PA table has eight entries: the power setting first, zeros after |
| Config.SetTxPower | config.go:124-145 | Bursts the PA table at PATABLE; a failed burst returns its error and writes nothing else; otherwise FREND0 is written with 0x10 and that write's error is returned |
| Config.PollBound | config.go:112-114 | A MARCSTATE poll stops only at the target or when the fuel is used up, never reads more than the fuel allows, and reads nothing when the state already holds the target |
| Config.AwaitState | config.go:112-114 | Reads MARCSTATE into the stored state until it equals the target, at most fuel times, with each failed read giving 0; reports whether it settled; no other field or register changes |
| Config.SetRx | config.go:110-115 | Strobes SRX, ignoring its error, then polls until MARCSTATE reads RX (0x0D) |
| Config.SetTx | config.go:117-122 | Strobes STX, ignoring its error, then polls until MARCSTATE reads TX (0x13) |
| Script.WriteScript | ook.go:29-101 | Issues every write of a script in order, each in its own write frame, ignoring each error; the transcript, count and registers are those of the script's run |
| Script.RunDelivered | ook.go:29-101 | When every exchange goes through, a script uses two exchanges per write and every write lands in its register |
| Script.RunKeeps | ook.go:29-101 | Whatever the transport does, a register no write of the script targets keeps its contents |
| Script.OverlayLast | ook.go:12-18 | After a script has landed, a register holds the value of the last write that targets it |
| Script.OverlayWritten | ook.go:29-101 | In a script that writes each register once, each write's value is in its register after the script lands |
| Ook.RunAfterReset | ook.go:24-27 | Resets the chip; a failed reset is returned wrapped and nothing more is sent; otherwise the script runs to the end and nil is returned, whatever its writes did |
| Ook.Configure | ook.go:22-104 | A reset, then the 34 writes of Ook.CONFIGURE (ook.go:29-101) in order; only a failed reset is reported |
| Ook.ConfigurePositioned | ook.go:29-101 | Every write of Configure targets a configuration register, and no register is written twice |
| Ook.ConfigureWritten | ook.go:29-101 | With every write delivered, each register Configure writes holds the value of its write |
| Ook.ConfigureRegisters | ook.go:34-86 | With every write delivered, MDMCFG2 is 0x30, FREND0 is 0x10, PKTCTRL0 is 0x32 and the sync word is 0xD391 |
| Ook.ConfigureOOKCarrierWave | ook.go:6-21 | Configure, with its error returned unchanged; on success, the three writes of Ook.CARRIER_WAVE (ook.go:12-18) follow |
| Ook.CarrierWaveRegisters | ook.go:12-18 | With every write delivered, PKTCTRL0 is 0x32, MDMCFG2 is 0x32 and IOCFG0 is 0x0D |
| Ook.CarrierWaveKeeps | ook.go:12-18 | Whatever the transport does, the carrier-wave writes leave every other register as Configure left it |
| Ook.ConfigureOOKPacket | ook.go:106-160 | A reset, then the 31 writes of Ook.OOK_PACKET (ook.go:115-157) in order; only a failed reset is reported |
| Ook.OokPacketPositioned | ook.go:115-157 | Every write of ConfigureOOKPacket targets a configuration register, and no register is written twice |
| Ook.OokPacketWritten | ook.go:115-157 | With every write delivered, each register ConfigureOOKPacket writes holds the value of its write |
| Ook.OokPacketRegisters | ook.go:115-133 | With every write delivered, PKTCTRL0 is 0x05, MDMCFG4/MDMCFG3 are 0xF7/0x83, MDMCFG2 is 0x32 and the sync word is 0x1234 |
| Ook.OokPacketKeeps | ook.go:115-157 | Whatever the transport does, ConfigureOOKPacket never touches IOCFG2, IOCFG0 or FIFOTHR |
| Packet.FifoPayload | packet.go:19-21 | The FIFO payload is one byte longer than the packet |
| Packet.PayloadRoundTrip | packet.go:19-21 | A packet that fits the FIFO is recovered from its payload: the length byte counts exactly the bytes after it |
| Packet.BuildPayload | packet.go:19-21 | The buffer holds the length byte at index 0 and a copy of the packet from index 1 on |
| Packet.FifoHeader | packet.go:23 | The TX FIFO burst header is 0x7F |
| Packet.TransmittingMasked | packet.go:37-39 | Transmitting, the test that ends the wait: only the five state bits decide whether the chip is still sending: bits 7-5 are ignored; TX and TX_END count as sending, RX and IDLE as done |
| Packet.WaitBound | packet.go:31-44 | The wait makes at most two exchanges per read; it runs out of fuel only when every read went through and saw TX or TX_END; it ends normally only after a delivered read outside those states |
| Packet.AwaitTxDone | packet.go:31-44 | Reads MARCSTATE until a read fails or the masked state is neither TX nor TX_END, at most fuel times; says which way it ended; no register changes |
| Packet.LoadFifo | packet.go:16-26 | Strobes SIDLE and SFTX, ignoring their errors, then bursts the length-prefixed payload into the TX FIFO; fails exactly when that burst does; no configuration register changes |
| Packet.LoadedOrder | packet.go:16-23 | The frames before STX, in order: SIDLE, then SFTX, then the FIFO burst, whose first exchange is the header 0x7F |
| Packet.TransmitOrder | packet.go:23-29 | STX and the wait follow only a FIFO burst that went through, and STX comes straight after it |
| Packet.TransmitErrors | packet.go:23-46 | SendData reports success exactly when the FIFO burst went through and no MARCSTATE read failed; a read failure is reported only after a delivered burst; the fuel runs out only on an error-free transmission |
| Packet.SendData | packet.go:10-47 | A packet longer than the 64-byte FIFO is rejected with its length before any traffic; otherwise the transcript, count, error and exhaustion are those of the transmission; no configuration register changes |

## Left out

- Delays are not modelled; they have no observable effect on the bus. They are the sleeps of the Reset pulse (spi.go:17, 19, 25), the 1 µs sleeps inside the five MISO busy-waits (spi.go:37, 56, 74, 91, 105) and the 1 ms sleep between MARCSTATE reads in SendData (packet.go:43).
- The busy-wait for MISO low is one abstract event, `MisoLow`; the model does not count how many times the pin is sampled.
- The unbounded polling loops of SetRx, SetTx and SendData take a `fuel` bound. SetRx and SetTx return whether the state was reached, and SendData returns whether the fuel ran out. A run that would poll forever is not modelled.
- Config.FrequencyWord: the source computes the word in `float32` arithmetic from megahertz. The model takes the frequency in whole hertz and uses exact integer division, so rounding of the float computation is not captured. The conversion to `uint32` is modelled as reduction modulo 2^32.
- Config.GetFrequency: returns the 24-bit frequency word. It does not convert the word back to megahertz in floating point.
- Read answers come from the transport oracle, not from the register store. The chip model interprets write frames only. It gives no meaning to strobes (SRES does not clear the store, SIDLE and STX change no state) or to status registers. FIFO and PA table contents are not stored.
- Error values are an enumeration with wrapped causes, not formatted message strings.
- The device's SPI bus, chip-select function and MISO pin are folded into one `Bus` object. The `machine` package and the pin objects are not part of this model.
- The package-level variables `frend0`, `freq0`, `freq1`, `freq2` and `mhz` are declared but never read by the driver, so `Globals` leaves them out.
- The straight-line register writes of setCCMode, Configure, ConfigureOOKCarrierWave and ConfigureOOKPacket are modelled as a table of writes issued by one loop. The order, values and ignored errors are the same.
- IsConnected reads address 0x31 with the single-read flag, so the header is 0xB1. On the CC1101, status registers above 0x2F are reached only with the burst bit set, so this byte is taken as a command strobe rather than a read of the VERSION register. The model records the byte as written and does not interpret it.
- The code truncates the frequency word rather than rounding it, writes FREND0 only as 0x10 (in SetTxPower and the OOK routines), and has no receive routine; the model does the same.
- Spi.ReadBurstRegister: `length` is a `nat`. The source's Go `int` would make `make([]byte, length)` (spi.go:53) panic for a negative length; the model does not capture that panic.
- Config.Join: rebuilds the word as a sum of the bytes times 2^16 and 2^8, where the source shifts and ORs them. The two agree because the three bytes occupy disjoint bit ranges; that equivalence is not itself proved.
- Config.Split: takes the word as an unbounded natural and each byte as a base-256 digit of it, where the source shifts and masks a `uint32`. The two agree on every 32-bit word.
