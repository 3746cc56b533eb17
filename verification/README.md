# PonyProg AVR in-system programming and Microwire transport, in Dafny

This project models three parts of PonyProg, a serial device programmer:

- the AVR in-system-programming (ISP) driver, `At90sBus`;
- the Microwire bit/word transport, `MicroWireBus`;
- the chip-identifier constants both of them dispatch on.

The model proves properties of each part.

**The AVR bus.** The hardware is an abstract trace (`SpiTrace`):
- every byte shifted out (`Sent`) and shifted in (`Received`) is appended to a log;
- so are bare clock pulses (`ExtraClock`), reset pulses and delays (`WaitMs`, `WaitUs`);
- the bytes the chip answers with come from a scripted stream;
- once the script is exhausted the line idles high, so further reads give `0xFF`.

**The Microwire lines.** These are modelled the same way (`MicroBus`). A log records clock, DI and reset levels, DO samples and delays. The DO levels are scripted, and read low past the end of the script.

**Configuration.** The driver's user settings become one `Config` value: AT90S1200 mode, programming and erase delays, reset settle delay, page delay, flash-page polling, and poll bounds. They replace the global profile the driver reads.

**Timing and cancellation.** Waits appear only as markers in the log. The progress callback, which can cancel a transfer, is a sequence of answers.

Modules:

| module | models |
|---|---|
| `Bits` | powers of two, bit tests, the `addr & ~(size-1)` alignment, MSB-first bit strings |
| `Options`, `At90sConfig` | `Option`, the driver's configuration, status codes, the two memories |
| `SpiTrace` | the byte bus: events, scripted answers, byte sends and receives |
| `EepTypes` | family and sub-type ids, the AVR model enumeration, `KB`, the chip record |
| `At90sFrames` | the command frames and the single-byte reads and writes |
| `At90sFuseLock` | the per-model lock and fuse layouts and their active-low encoding |
| `At90sReset` | the programming-enable handshake and the chip erase |
| `At90sPoll` | write-completion polling, blank-page check, page write |
| `At90sBulk` | the whole-memory read and write loops |
| `MicroBus` | Microwire speed, bit and word transfer, ready poll, address width |

For each loop the model has two parts:
- a closed-form function of the bus state (for example `WaitReadyResult`, `PageWriteResult`, `BytesFrom`, `PagesFrom`, `ResetResult`);
- a method with the source's loop structure, proved equal to that function.

Lemmas then state the properties in terms of the closed form.

## Model

| member | source | states |
|---|---|---|
| EepTypes.ModelIdRoundTrip | SrcPony/eeptypes.h:57-131 | decoding an AVR model's id gives back that model |
| EepTypes.FromIdSound | SrcPony/eeptypes.h:57-131 | an id decodes to a model only when it is exactly that model's id |
| EepTypes.ModelIdsDistinct | SrcPony/eeptypes.h:61-131 | the AVR model ids are pairwise distinct, so dispatching on the id is a function of the model |
| EepTypes.ModelFamilyBits | SrcPony/eeptypes.h:57-131 | AT90S/AT90CAN ids carry `AVRAT90` (0x03) in bits 16..23, ATtiny ids `AVRTiny` (0x14), ATmega ids `AVRMega` (0x15) |
| EepTypes.ModelIdComposes | SrcPony/eeptypes.h:57-131 | each model id is its family code shifted up 16 bits, combined with its 15-bit sub-type |
| EepTypes.InvalidIsNoModel | SrcPony/eeptypes.h:37 | `EID_INVALID` (0) is no model's id and decodes to no model |
| EepTypes.FamilyCodeRoundTrip | SrcPony/eeptypes.h:39-269 | every primary family code decodes back to its family and lies in 1..`NO_OF_EEPTYPE` (0x15) |
| EepTypes.FamilyCodesDistinct | SrcPony/eeptypes.h:39-269 | the primary family codes are pairwise distinct |
| EepTypes.SubTypeIdsConsistent | SrcPony/eeptypes.h:39-267 | every listed sub-type id of a non-AVR family carries that family's code in bits 16..23 and is not `EID_INVALID` |
| EepTypes.KB | SrcPony/eeptypes.h:274 | `KB(x)` is a whole number of kilobytes, exactly `x` of them |
| EepTypes.ComposeId | filebuf.cpp:166-169 | the composite chip type has the primary type in bits 16..23 and the sub-type's low 15 bits below |
| At90sFrames.ReadEEPFrameDecodes | SrcPony/at90sbus.cpp:74-81 | the EEPROM read frame is opcode `0xA0` followed by the address modulo 64K, high byte first |
| At90sFrames.WriteEEPFrameDecodes | SrcPony/at90sbus.cpp:83-89 | the EEPROM write frame is opcode `0xC0`, the address modulo 64K, then the low byte of the data |
| At90sFrames.ReadProgFrameDecodes | SrcPony/at90sbus.cpp:92-115 | the program-memory read uses opcode `0x28` for odd and `0x20` for even byte addresses; from the frame the chip recovers the byte address modulo 2^17 |
| At90sFrames.WriteProgFrameDecodes | SrcPony/at90sbus.cpp:117-141 | likewise for writes with `0x48`/`0x40`, and the data byte comes last |
| At90sFrames.PageCommitFrameDecodes | SrcPony/at90sbus.cpp:1028-1031 | the page commit frame is opcode `0x4C` with the word address (`addr >> 1`) modulo 64K |
| At90sFrames.ReadDeviceCode | SrcPony/at90sbus.cpp:733-740 | reading a signature byte sends the `0x30` frame for that index and returns the chip's next answer, consuming exactly one answer |
| At90sFuseLock.LockTablesAgree | SrcPony/at90sbus.cpp:211-324 | every model whose lock read is a masked read also writes lock bits, and the write's mask matches the read's mask |
| At90sFuseLock.FuseTablesAgree | SrcPony/at90sbus.cpp:326-617 | a model that writes `n` fuse bytes also reads `n` fuse bytes |
| At90sFuseLock.LockRoundTrip | SrcPony/at90sbus.cpp:243-294 | for a masked-lock model, the write sends one lock frame and the programming wait; reading back the byte that frame carried returns `v & mask` |
| At90sFuseLock.FuseBytesRoundTrip | SrcPony/at90sbus.cpp:585-603 | the fuse bytes as sent (active-low), complemented and reassembled by the read, give `v` masked to one, two or three bytes |
| At90sFuseLock.FuseThreeByteFrames | SrcPony/at90sbus.cpp:426-439 | a three-byte model sends exactly `(0xAC,0xA0,0,~lo)`, `(0xAC,0xA8,0,~mid)` and `(0xAC,0xA4,0,~hi)`, each followed by the programming wait |
| At90sFuseLock.FuseFramesCarry | SrcPony/at90sbus.cpp:383-391 | a byte-wise fuse write sends one four-byte frame per fuse byte, whose last byte is that fuse byte as sent |
| At90sFuseLock.ReadFuseBytes | SrcPony/at90sbus.cpp:585-603 | the fuse reads collect the chip's next `n` answers in order and consume exactly those, and the log gains exactly the `n` read frames, each followed by its answer |
| At90sFuseLock.FuseReadLogFrames | SrcPony/at90sbus.cpp:585-603 | the low, high and extended fuse reads send `(0x50,0,0)`, `(0x58,0x08,0)` and `(0x50,0x08,0)` in that order, each followed by one answer |
| At90sFuseLock.ReadFuseBitsSends | SrcPony/at90sbus.cpp:487-617 | per fuse-read layout: no command sends nothing and reads 0; the lock-command layouts send `(0x58,0,0)` and return the one answer complemented and masked (`0x20` or `0x21`); the byte-wise layouts send the fuse read frames and reassemble the answers |
| At90sFuseLock.ReadLockBitsOf | SrcPony/at90sbus.cpp:619-731 | a model's lock read is the read of its layout, and a model without one sends nothing and reads 0 |
| At90sFuseLock.SignatureLockRead | SrcPony/at90sbus.cpp:623-641 | the AT90S models without a lock command read the signature bytes at 0, 1, 2 (`(0x30,0,i)`), and report `0x06` exactly when the chip answers `0, 1, 2` |
| At90sFuseLock.Bits76LockRead | SrcPony/at90sbus.cpp:643-655 | the lock read `(0x58,0,0)` returns bit 1 set exactly when answer bit 7 is clear and bit 2 set exactly when answer bit 6 is clear |
| At90sFuseLock.MaskedLockRead | SrcPony/at90sbus.cpp:657-722 | the masked lock read sends `(0x58,0,0)`, consumes one answer and returns it complemented and masked |
| At90sFuseLock.FuseInCommandLayout | SrcPony/at90sbus.cpp:343-361 | the in-command fuse models send the one frame `(0xAC, 0xBF & ~(v & mask), 0, 0)` with mask `0x01`, `0x0B` or `0x1F`; with mask `0x01` they read fuses through the lock command (mask `0x21`), otherwise as one fuse byte |
| At90sFuseLock.Tiny22FuseLayout | SrcPony/at90sbus.cpp:494-499 | the ATtiny22 writes no fuses and reads its fuse bit through the lock command, masked with `0x20` |
| At90sFuseLock.ReadFuseBitsBytewise | SrcPony/at90sbus.cpp:538-550 | on a byte-wise model the fuse read reassembles what the byte reads collect |
| At90sFuseLock.ReadFuseBytesScripted | SrcPony/at90sbus.cpp:585-603 | when the chip answers with `bs`, the fuse byte reads collect exactly `bs` |
| At90sFuseLock.FuseRoundTrip | SrcPony/at90sbus.cpp:383-391 | for every byte-wise model, the write of `v` logs its `n` four-byte frames with their waits, each frame's last byte is the fuse byte as sent, and when the chip reports those bytes back the read on the written bus returns `v & 0xFF`, `v & 0xFFFF` or `v & 0xFFFFFF` |
| At90sFuseLock.FuseFaceScenario | SrcPony/at90sbus.cpp:426-439 | every three-byte model (the ATmega328 among them) written `0x00FACE` logs the frames `(0xAC,0xA0,0,0x31)`, `(0xAC,0xA8,0,0x05)`, `(0xAC,0xA4,0,0xFF)`; reading back with the chip answering `0x31, 0x05, 0xFF` logs the three fuse read frames and returns `0x00FACE` |
| At90sFuseLock.NoFuseNoLockNoIo | SrcPony/at90sbus.cpp:296-303 | models without fuse or lock commands, and ids that name no AVR model, send nothing and read 0 |
| At90sReset.Reset | SrcPony/at90sbus.cpp:143-209 | both loop forms (AT90S1200 signature check; 4 attempts of 32 echo probes) give the closed-form log, consumed answers and success flag |
| At90sReset.ResetEcho | SrcPony/at90sbus.cpp:178-208 | the nested 4 x 32 probe loop stops at the first `0x53` echo; it succeeds exactly when an echo came within 128 probes |
| At90sReset.Reset1200 | SrcPony/at90sbus.cpp:151-177 | the AT90S1200 loop stops at the first signature read giving `0x1E`; it succeeds exactly when one of the four attempts saw it |
| At90sReset.ResetOkIff | SrcPony/at90sbus.cpp:143-209 | the handshake succeeds iff one of the first 128 answers is the echo (AT90S1200 mode: iff one of the four signature answers is `0x1E`) |
| At90sReset.ProbesStopAtEcho | SrcPony/at90sbus.cpp:186-206 | between 1 and 128 probes are made; no probe before the last was answered by the echo; on success the last one was |
| At90sReset.ProbeEventsCount | SrcPony/at90sbus.cpp:195-206 | a probe sends no reset pulse, and one extra clock pulse exactly when it is not echoed |
| At90sReset.ProbesCount | SrcPony/at90sbus.cpp:182-206 | `n` probes send `ceil(n/32)` reset pulses and one clock pulse per non-echo answer |
| At90sReset.HandshakePulses | SrcPony/at90sbus.cpp:178-208 | the handshake sends at most four reset pulses, and one extra clock pulse for every failed probe |
| At90sReset.Attempts1200Pulses | SrcPony/at90sbus.cpp:151-177 | `n` AT90S1200 attempts send exactly `n` reset pulses |
| At90sReset.ResetLogShape | SrcPony/at90sbus.cpp:143-209 | every reset opens with a reset pulse and sends at most four |
| At90sReset.Erase | SrcPony/at90sbus.cpp:872-902 | the erase sends two `(0xAC,0x80,0,0)` frames, each followed by the erase delay and a reset, with a write of `0xFF` to address 0 between them; it always returns OK |
| At90sPoll.Poll | SrcPony/at90sbus.cpp:826-835 | the bounded poll makes `min(first hit + 1, bound)` reads and reports whether a hit came within the bound |
| At90sPoll.PollHitIff | SrcPony/at90sbus.cpp:826-835 | a poll succeeds iff some answer within the bound matches; it reads at most `bound` times and never continues past a matching answer |
| At90sPoll.WaitReadyAfterWrite | SrcPony/at90sbus.cpp:800-869 | in AT90S1200 mode, and for marker data (EEPROM `0x80`/`0x7F`/`0x00`/`0xFF`, flash `0x7F`/`0xFF`), it waits the programming delay and reports OK without reading; otherwise it reads at most `timeout` times and reports OK iff one of those answers equals the data, else a timeout |
| At90sPoll.CheckBlankPage | SrcPony/at90sbus.cpp:1058-1072 | returns true iff every one of the first `length` bytes is `0xFF` |
| At90sPoll.WriteProgPage | SrcPony/at90sbus.cpp:1004-1056 | returns BADPARAM, touching nothing, iff the page size is not positive or there is no data. Otherwise it latches the page bytes at offsets `0..size-1` and commits the aligned page. It then either waits the page delay (OK) or polls the first non-`0xFF` byte, and is OK iff some answer within the bound is not `0xFF` |
| At90sPoll.FirstLocExtend | SrcPony/at90sbus.cpp:1018-1026 | scanning one more byte keeps the first non-blank location found so far, or sets it to this byte when it is the first non-`0xFF` |
| At90sPoll.PageStartHoldsAddr | SrcPony/at90sbus.cpp:1015-1016 | for a page size `2^k`, `addr & ~(2^k-1)` is the page holding `addr`: it has its low `k` bits clear and `page <= addr < page + 2^k` |
| At90sPoll.LatchFrames | SrcPony/at90sbus.cpp:1018-1026 | the latch fill is `4n` bytes long, and its `k`-th frame is the byte-write frame of offset `k` with page byte `k` |
| At90sPoll.BlankPagePollsNowhere | SrcPony/at90sbus.cpp:1018-1024 | no first non-blank location is found iff the page is blank |
| At90sBulk.Read | SrcPony/at90sbus.cpp:751-798 | reads bytes `0..` of the memory `addr` selects, storing the chip's answers in order; returns the step after which the callback cancelled (that byte is still stored), or the full length |
| At90sBulk.FirstCancelIs | SrcPony/at90sbus.cpp:768-790 | the count a transfer returns is characterised by cancelling at it and not before |
| At90sBulk.Write | SrcPony/at90sbus.cpp:904-986 | dispatches to the byte-wise EEPROM write, the paged flash write (page size above 1) or the byte-wise flash write, each equal to its closed form |
| At90sBulk.WriteBytes | SrcPony/at90sbus.cpp:910-936 | the byte loop stops at the first failed step with the write failure, or after the byte where the callback cancels |
| At90sBulk.ByteStepEeprom | SrcPony/at90sbus.cpp:916-929 | an EEPROM byte is read first; when the chip already holds it nothing else is sent, otherwise exactly the write frame and a 100 us delay follow, then the completion wait bounded by the configured timeout, and the byte succeeds exactly when the wait is skipped or one of the next `timeout` answers equals it; a failure is a timeout |
| At90sBulk.ByteStepFlash | SrcPony/at90sbus.cpp:963-973 | a program memory byte `0xFF` leaves the bus untouched; any other byte sends exactly the write frame and a 100 us delay, then waits with poll bound 2000, and succeeds exactly when the wait is skipped or one of the next 2000 answers equals it |
| At90sBulk.WritePages | SrcPony/at90sbus.cpp:940-957 | the page loop skips blank pages, writes the others, and stops at the first failed page or at a cancellation |
| At90sBulk.EepromMatchSkips | SrcPony/at90sbus.cpp:913-935 | when the EEPROM already holds the data, the write only reads every location and sends no write frame |
| At90sBulk.FlashErasedSkips | SrcPony/at90sbus.cpp:960-973 | in byte-wise flash mode, `0xFF` bytes issue no frame: an all-`0xFF` buffer leaves the bus untouched and stops only where the callback cancels |
| At90sBulk.BlankPagesSkip | SrcPony/at90sbus.cpp:943-950 | blank pages are never written: an all-`0xFF` buffer leaves the bus untouched and the write succeeds |
| At90sBulk.BytesDoneCount | SrcPony/at90sbus.cpp:910-980 | a byte-wise write that completes returns either every byte or the first step after which the callback cancelled |
| At90sBulk.PagesDoneCount | SrcPony/at90sbus.cpp:940-957 | a paged write that completes returns `o + p * pageSize`, a page boundary, where the callback cancelled after none of the first `p` pages: either the start offset of the page after which the callback first cancelled (that page is written, so the result is one page short of what was written), or the first page boundary at or past the length |
| MicroBus.SetDelay | microbus.cpp:66-89 | the bit delay is 0 exactly for TURBO, 1 for FAST, 10 for SLOW and 5 for every other tier, so never above 10 |
| MicroBus.DelaysDistinct | microbus.cpp:66-89 | distinct speed tiers get distinct bit delays, so the delay identifies the tier |
| MicroBus.BitLatches | microbus.cpp:92-106 | sending a bit latches exactly that bit on one rising edge, leaves the clock low with DI at the bit, and samples nothing |
| MicroBus.SampleIsHigh | microbus.cpp:109-125 | receiving a bit samples DO once, while the clock is high, and leaves the clock low |
| MicroBus.SendDataWord | microbus.cpp:128-139 | the word send drives the clock low, sends bits `wlen-1` down to 0 of `wo`, then clears DI |
| MicroBus.WordLatches | microbus.cpp:131-136 | a sequence of bit sends latches exactly those bits, in order, and leaves the clock low |
| MicroBus.SendWordDelivers | microbus.cpp:128-139 | the chip latches the `wlen` low bits of `wo`, most significant first, i.e. `wo mod 2^wlen`; both lines end low |
| MicroBus.RecDataWord | microbus.cpp:141-151 | the result has bit `k` set iff the sample taken at step `wlen-1-k` was high |
| MicroBus.RecWordSamples | microbus.cpp:141-151 | a word receive samples DO only while the clock is high, once per bit, in order |
| MicroBus.Loopback | microbus.cpp:128-151 | receiving what a word send latched gives `wo mod 2^wlen` |
| MicroBus.PollReady | microbus.cpp:166-168 | the ready loop samples DO at most `timeout` times, stops at the first high sample, and leaves the counter at `timeout` minus the low samples |
| MicroBus.WaitReadyAfterWrite | microbus.cpp:153-173 | as written: pulses reset, polls, and reports success whenever the final counter is non-zero |
| MicroBus.WaitReadyIntended | microbus.cpp:153-173 | corrected: reports success iff DO was seen high within `timeout` samples |
| MicroBus.ReadyIntendedIff | microbus.cpp:166-172 | a positive final counter means DO was high within the bound; no high sample precedes the last one |
| MicroBus.AsWrittenAgreesForNonNegative | microbus.cpp:166-172 | for timeouts of 0 or more the written result and the intended result agree |
| MicroBus.NegativeTimeoutReportsReady | microbus.cpp:166-172 | a negative timeout reports success without sampling DO at all, although DO was never seen high |
| MicroBus.CalcAddressSize | microbus.cpp:195-208 | -1 iff the size is not positive; otherwise 1..17, namely one more than the highest of bits 15..1 set in `size-1` (0 if none), plus one more for byte organisation |
| MicroBus.TopBitUnique | microbus.cpp:201-203 | the highest set bit the loop finds is unique |
| MicroBus.AddressWidthSuffices | microbus.cpp:197-207 | for sizes 2..65536 and word organisation, the result `r` satisfies `2^(r-1) < size <= 2^r`: the address width just suffices |
| Bits.ClearLowMask | SrcPony/at90sbus.cpp:1016 | clearing the bits of `2^k - 1` rounds down to a multiple of `2^k` |
| Bits.BitsMsbRoundTrip | microbus.cpp:131-133 | the MSB-first bits of `w` over `n` places read back as `w mod 2^n` |

## Left out

- Timing: `WaitMsec`/`WaitUsec` are markers in the log. The speed-dependent bit delay is a parameter.
- Debug logging (`qDebug`, `UserDebug`) is not modelled.
- The progress percentages and `ReadStart`/`ReadEnd`, `WriteStart`/`WriteEnd`, `EraseStart`/`EraseEnd` are not modelled. Progress is only the callback's cancel answer.
- `SetLastProgrammedAddress` is left out. It records an address for the user interface and sends nothing.
- The profile globals become fields of `Config`. These include the delays `RefreshParameters` reloads, the settle and page delays, and the flash-page-polling flag. The default poll bounds also become `Config` fields (`readyTimeout`, `pageTimeout`), because the header declaring them is not part of this model.
- Microwire speed tiers are a datatype, because the header that defines their numeric constants is not part of this model.
- `MicroWireBus::Reset` and the port-level line drivers are not part of this model. The ready poll's reset pulse is a pair of line events.
- `SPIBus` byte shifting is modelled at the byte level. `SendDataByte` sends the low eight bits of its argument; bit-level SPI framing is not modelled.
- The native integer widths are not modelled:
  - `long` and `int` are unbounded;
  - the program memory address is `nat`;
  - `1 << k` for `k >= 32` and an overflowing `val` in `RecDataWord` are outside the model.
- At90sPoll.CheckBlankPage: requires a non-negative length, because the source's `while (length--)` would not stop on a negative one.
- At90sPoll.WriteProgPage: takes a non-negative address and requires the buffer to hold `page_size` bytes when there is one. A null buffer is modelled as `None`.
- At90sBulk.Write: the paged write requires the buffer to hold every page the loop touches (`PagesFit`). It does not model the read past the buffer that a length not a multiple of the page size would cause.
- At90sBulk.Read: follows the code in returning the index of the step at which the callback cancelled. That is one less than the number of bytes stored, not the count of bytes obtained.
- At90sBulk.Write: follows the code on a cancelled paged write. The `break` skips `len += page_size`, so the write returns the start offset of the page after which the callback cancelled. That page has already been written, so the count is one page short of what was written.
- At90sFuseLock.LockRoundTrip: covers only the masked-lock models. The AT90S signature-based lock read and the two-bit `LockBits76` read have lemmas for their frames and results (`SignatureLockRead`, `Bits76LockRead`) but no round trip. Those models send the lock bits inside the command byte, and read back either the signature or bits 7 and 6 of the chip's lock byte. Neither returns a byte the write sent.
- At90sFuseLock.FuseRoundTrip: covers only the byte-wise fuse models. The in-command models have no round trip: AT90S2323, AT90S2343, AT90S4434, AT90S8535, ATmega603, ATmega103, AT90S2333 and AT90S4433. They send `0xBF & ~(v & mask)` inside the command byte, and read back through a different command: the lock command (`~rv & 0x21`) or one fuse byte (`~rv & 0xFF`). The answer's layout is the chip's, not a byte the write sent. The ATtiny22 writes no fuses at all, and reads one bit through the lock command (`~rv & 0x20`). `FuseInCommandLayout` and `Tiny22FuseLayout` state their frames and read masks instead.
- `ReadCalibration` is modelled as a single-byte read like `ReadDeviceCode`, with no further property.
- The `chipInfo` record is a datatype (`EepTypes.ChipInfo`). The chip tables that fill it are not part of this model.

## Findings

| source | as written | input that shows it | evidently intended | confidence | as-written member | corrected member |
|---|---|---|---|---|---|---|
| microbus.cpp:167-172 | the poll loop runs `for (k = timeout; k > 0 && !DO; k--)` and returns `k ? OK : -1`, so any non-zero final counter means success | `timeout = -1` and DO never high: the loop does not run, `k` stays `-1` and the result is OK | success only when DO was seen high, i.e. `k > 0` | not executed | MicroBus.WaitReadyAfterWrite (with MicroBus.NegativeTimeoutReportsReady) | MicroBus.WaitReadyIntended (with MicroBus.ReadyIntendedIff) |
