# p44-ledchain and the Power Dock battery level, in Dafny

This project models the core of `p44-ledchain`, a Linux kernel driver that
drives chains of WS281x/SK6812 smart LEDs from the PWM unit of the MT7688,
and the battery-level conversion of the Onion Power Dock utility.

The driver takes a frame of colour bytes written to a channel's device file.
It turns the frame into 64-slot PWM "patterns". Each pattern holds two 32-bit
output words and the time it takes to send. The patterns are then sent one
at a time from the PWM unit's "wave finished" interrupt. An interrupt that
comes too late means the chain may have latched a partial frame, so the
whole frame is sent again from a one-shot timer, up to a retry budget. After
a frame the same timer holds back the next one until the chain's reset time
is over.

Modules, one per part of the driver:

- `LedTypes` (`led_types.dfy`): the chip timing table, the layout table with
  its byte fetch order, the legacy predefined types, and the identifiers.
- `Config` (`config.dfy`): the parameter checks of `p44ledchain_add_device`
  and the size of the pattern buffer.
- `Frame` (`frame.dfy`): the variable-type header, the LED count of a frame
  and the reordering of each LED's bytes.
- `Bits` (`bits.dfy`): the 32-bit LED word and its bits, most significant first.
- `BitPattern` (`bit_pattern.dfy`): the slots each LED bit becomes, their
  packing into patterns and durations, and a decoder proving the encoding
  loses nothing.
- `Generator` (`generator.dfy`): the bit generator's cursor (`outPtr`,
  `outMask`, `bitCount`, `nanosecs`) as a value, one step per C routine.
  Feeding a frame's bits and finishing yields exactly the patterns
  `BitPattern.Encode` specifies.
- `Transmission` (`transmission.dfy`): the send state machine, one function
  per entry point, from the channel's state and the time `now` to the new
  state and the hardware effects.
- `Update` (`update.dfy`): the settings `update_leds` encodes a frame with,
  and the invariant of its LED loop.
- `Status` (`status.dfy`): the chunked status read.
- `Driver` (`driver.dfy`): the device record `struct p44ledchain_dev` as the
  class `LedChain`. It has the pattern buffer as an `array<Pattern>` and one
  method per driver routine, each proved to change the record as the
  functions above specify.
- `PowerDock` (`power_dock.dfy`): `convertBatteryInputsToLevel`.
- `Common` (`common.dfy`): `u32` arithmetic, signed `char`, and the `Option`
  and `Result` types.

Clock reads are a parameter `now` (nanoseconds). Register writes and timer
starts become ghost `HwEvent` lists:

- disable;
- load pattern k;
- configure the channel;
- arm the timer for d ns.

Where the driver's documentation and its code differ, the model follows the code:

- A header's retry byte replaces the channel's retry budget for all later
  frames, not only for that frame (`p44-ledchain/src/p44-ledchain.c:853-855`).
- A frame with a bad header is dropped, but the frame in flight has already
  been stopped and an overrun counted (`p44-ledchain/src/p44-ledchain.c:822-825`).
  The channel does not keep its previous sending state.

## Model

| member | source | states |
|---|---|---|
| LedTypes.ChipDesc | p44-ledchain/src/p44-ledchain.c:204-273 | every chip profile has 0 < TPassive_min ≤ TPassive_max < TReset, T0Active > 0, and the two register timings are multiples of 25 ns, so the `/25` register values are exact |
| LedTypes.LayoutDesc | p44-ledchain/src/p44-ledchain.c:169-178 | every layout has 3 or 4 channels, and its first `channels` fetch indices are a permutation of 0..channels-1 |
| LedTypes.ChipFromId | p44-ledchain/src/p44-ledchain.c:191-200 | an identifier names a chip iff it is 1..num_ledchips-1, and the chip found has that identifier |
| LedTypes.LayoutFromId | p44-ledchain/src/p44-ledchain.c:160-167 | an identifier names a layout iff it is 1..num_ledlayouts-1, and the layout found has that identifier |
| LedTypes.IdsRoundTrip | p44-ledchain/src/p44-ledchain.c:191-200 | every chip and every layout is found again from its identifier |
| LedTypes.PredefLedType | p44-ledchain/src/p44-ledchain.c:298-311 | the legacy types are exactly the indices 0..num_predef_ledtypes-1 |
| Config.ToU16 | p44-ledchain/src/p44-ledchain.c:1072 | the `(u16)` cast: a value below 2^16 congruent to its input modulo 2^16, and the input itself when it already fits |
| Config.DecodeLedType | p44-ledchain/src/p44-ledchain.c:1071-1101 | with a non-zero high byte: accepted iff layout byte < num_ledlayouts and chip byte is 1..num_ledchips-1, which give the fixed chip and layout, else the layout or chip error; with a zero high byte: 0xFF is variable mode, 0..5 the legacy pair, anything else the LED type error |
| Config.LedTypeRoundTrip | p44-ledchain/src/p44-ledchain.c:1071-1101 | every selection has a parameter value that decodes back to it |
| Config.AddDevice | p44-ledchain/src/p44-ledchain.c:1043-1136 | fewer than two parameters or an LED count outside 1..2048 is an error; otherwise accepted iff the LED type decodes and the retry count is ≥ 0; the configuration has the flags, count, selection, retries (default 3), passive time (default 0), the warning for a passive time below 5000 ns, and the buffer size as the driver computes it |
| Config.TwoParamsMeanVariable | p44-ledchain/src/p44-ledchain.c:1067-1108 | with only the two required parameters the channel is in variable mode, with the default retry budget and no passive time |
| Config.AddDeviceAcceptsSelection | p44-ledchain/src/p44-ledchain.c:1071-1128 | every selection, non-negative retry count and passive time is accepted and kept as given |
| Config.OutBufSizeAsWritten | p44-ledchain/src/p44-ledchain.c:1130-1136 | the driver's buffer size is a whole number of patterns, and has room for at most 3 slots per LED bit |
| Config.BufferTooSmall | p44-ledchain/src/p44-ledchain.c:1130-1136 | the driver's buffer for one RGB LED holds one pattern, while that LED at full brightness encodes to two: its slots run past slot 64, so the bit generator itself writes into the second pattern |
| Config.EncodeFits | p44-ledchain/src/p44-ledchain.c:1130-1136 | the corrected capacity (4 slots per LED bit, rounded up) holds the encoding of every frame of at most num_leds LEDs |
| Frame.DecodeHeader | p44-ledchain/src/p44-ledchain.c:830-865 | rejected as too short iff the frame is empty, the signed length byte is below 5 or the frame is shorter than length+1; otherwise rejected iff layout or chip byte is no identifier; an accepted header gives layout, chip, (b3·256+b4)·1000 ns, the signed retry byte and the payload start length+1 |
| Frame.HeaderRoundTrip | p44-ledchain/src/p44-ledchain.c:830-865 | a header built from layout, chip, passive time in µs and retries decodes to them, with the payload after the sixth byte |
| Frame.LedCount | p44-ledchain/src/p44-ledchain.c:869-873 | the LED count is the largest number of whole LED records in the payload, capped at num_leds |
| Frame.FrameBytesAt | p44-ledchain/src/p44-ledchain.c:893-905 | output byte i of LED k is input byte fetchIdx[i] of LED k |
| Frame.FetchIdxInvolution | p44-ledchain/src/p44-ledchain.c:169-178 | every fetch order is its own inverse |
| Frame.FrameBytesKeepInput | p44-ledchain/src/p44-ledchain.c:893-905 | input byte j of LED k is sent as output byte fetchIdx[j] of LED k: reordering loses and duplicates no byte |
| Update.FrameSettings | p44-ledchain/src/p44-ledchain.c:829-867 | a frame is rejected iff the channel is variable and the header does not decode, with the header's error; a fixed channel keeps chip, layout and retries and sends the whole frame; a variable one takes chip, layout, passive time and (when non-zero) retries from the header and sends the bytes after it; the passive time is the channel's (fixed) or the header's (b3·256+b4)·1000 ns (variable), with 0 replaced by the chip's maximum passive time, so it is never 0 afterwards |
| Update.ClientFrameSettings | p44-ledchain/src/p44-ledchain.c:829-867 | a variable-mode frame built from a header and payload is encoded with the header's settings (0 µs meaning the chip's maximum, retry byte 0 keeping the channel's budget) and that payload |
| Update.FrameReadBack | p44-ledchain/src/p44-ledchain.c:869-908 | decoding the patterns of a frame gives back the bits of the first min(len/channels, num_leds) LEDs, reordered, most significant bit first |
| Update.FrameFits | p44-ledchain/src/p44-ledchain.c:1130-1136 | the patterns of every frame fit the corrected buffer of the channel |
| Update.GuardLetsOverrunThrough | p44-ledchain/src/p44-ledchain.c:720-725 | on a fixed RGB channel of 112 LEDs the driver's buffer holds 126 patterns, a full-brightness frame takes 128 and its slots reach pattern 127, and the safeguard as written behaves as no guard at every cursor up to 127 |
| Update.FrameTakesTime | p44-ledchain/src/p44-ledchain.c:412-432 | every pattern of a frame has a non-zero duration, so `sendNextPattern` returning 0 means the frame is done |
| Update.AssembleLedWord | p44-ledchain/src/p44-ledchain.c:893-902 | the inner loop of `update_leds` builds the LED word of the record's bytes in fetch order |
| Bits.LedWordBits | p44-ledchain/src/p44-ledchain.c:893-903 | the bits `generateBits` takes from an LED word of channels·8 bits, MSB first, are the bits of its bytes in order |
| BitPattern.SlotRule | p44-ledchain/src/p44-ledchain.c:741-755 | a bit becomes an extra passive slot for a 1 due at slot 63, one active slot and a second for a 1, then a passive slot unless the pattern just ended, and a second for a 0 on a double-passive chip unless the pattern ends; a 1 never starts at slot 63 |
| BitPattern.OneBitInOnePattern | p44-ledchain/src/p44-ledchain.c:741-745 | both active slots of every 1 bit fall in the same pattern |
| BitPattern.ZeroBitDoublePassive | p44-ledchain/src/p44-ledchain.c:749-754 | on a double-passive chip, a 0 bit away from the pattern's end is one active and two passive slots |
| BitPattern.ZeroBitsAlternate | p44-ledchain/src/p44-ledchain.c:746-752 | on a single-passive chip, a run of 0 bits from an even slot alternates active and passive slots |
| BitPattern.PatternAt | p44-ledchain/src/p44-ledchain.c:687-728 | pattern k holds slots 64k..64k+63, slot j as bit j of data[0] and slot 32+j as bit j of data[1], each high iff active ≠ inverted, and its duration is #active·T0Active + #passive·TPassive_min |
| BitPattern.DurationByCount | p44-ledchain/src/p44-ledchain.c:706-710 | the time of a slot list is #active·T0Active + #passive·TPassive_min |
| BitPattern.PaddingDuration | p44-ledchain/src/p44-ledchain.c:772-789 | padding adds TPassive_min per passive slot to the time |
| BitPattern.EncodeLength | p44-ledchain/src/p44-ledchain.c:765-796 | a frame encodes to its slot count divided by 64, rounded up, which is at most 4 slots per bit |
| BitPattern.EncodedDurationsPositive | p44-ledchain/src/p44-ledchain.c:706-716 | every encoded pattern takes time |
| BitPattern.UnpackPatterns | p44-ledchain/src/p44-ledchain.c:687-728 | reading the slots back from the packed patterns gives the slot list |
| BitPattern.EncodeRoundTrip | p44-ledchain/src/p44-ledchain.c:734-796 | decoding the slots of the encoded patterns, as the chain does, gives back exactly the bits encoded |
| Generator.MaskBitNext | p44-ledchain/src/p44-ledchain.c:691-712 | the output mask moves one bit up per slot and starts again at bit 0 after bit 31 |
| Generator.Bit | p44-ledchain/src/p44-ledchain.c:684-730 | one slot keeps the cursor consistent and counts one more slot written |
| Generator.BitCursor | p44-ledchain/src/p44-ledchain.c:684-730 | after one more slot the buffer up to the cursor holds the patterns of all slots so far, and the open pattern their partial words and time |
| Generator.BitAsWritten | p44-ledchain/src/p44-ledchain.c:712-728 | the step with the safeguard as written writes what `Generator.Bit` writes, and is exactly `Generator.Bit` whenever the cursor index is below `outBufSize`, a byte count |
| Generator.BitGuarded | p44-ledchain/src/p44-ledchain.c:712-728 | the safeguard as meant: the step writes what `Generator.Bit` writes, the cursor never leaves a buffer of the given number of patterns, and before the last pattern the step is `Generator.Bit` |
| Generator.InputBitCursor | p44-ledchain/src/p44-ledchain.c:738-758 | one input bit appends exactly its slot rule's slots |
| Generator.FeedCursor | p44-ledchain/src/p44-ledchain.c:734-761 | feeding bits appends exactly their slots |
| Generator.FeedConcat | p44-ledchain/src/p44-ledchain.c:896-906 | feeding LEDs one after another is feeding their bits together |
| Generator.FilledWord | p44-ledchain/src/p44-ledchain.c:772-782 | filling the current word sets its remaining bits passive and adds TPassive_min per bit |
| Generator.FinishLow | p44-ledchain/src/p44-ledchain.c:769-793 | finishing inside data[0] pads it with passive bits, writes data[1] as 32 passive bits, and adds their time |
| Generator.FinishMid | p44-ledchain/src/p44-ledchain.c:784-793 | finishing right after data[0] writes data[1] as 32 passive bits and adds their time |
| Generator.FinishHigh | p44-ledchain/src/p44-ledchain.c:769-793 | finishing inside data[1] pads it with passive bits and adds their time |
| Generator.FinishCursor | p44-ledchain/src/p44-ledchain.c:765-796 | finishing writes the slots padded to whole patterns and returns their number |
| Generator.FinishWellFormed | p44-ledchain/src/p44-ledchain.c:765-796 | finishing leaves every pattern of the buffer with two 32-bit words |
| Generator.GeneratedFrame | p44-ledchain/src/p44-ledchain.c:673-796 | from `initBitGenerator`, feeding a frame's bits and finishing writes exactly the encoded patterns and returns their number |
| Generator.BitsLoopEnd | p44-ledchain/src/p44-ledchain.c:734-761 | the `generateBits` loop feeds the word's bits, most significant first |
| Transmission.SendNext | p44-ledchain/src/p44-ledchain.c:412-432 | the result is 0 iff nothing is left or the pattern takes no time |
| Transmission.SendNextLoads | p44-ledchain/src/p44-ledchain.c:412-432 | the pattern at `outPtr` is loaded iff patterns remain |
| Transmission.SendFirstFacts | p44-ledchain/src/p44-ledchain.c:436-456 | sending starts again at pattern 0, loaded iff the frame has patterns, and the state stays consistent |
| Transmission.Started | p44-ledchain/src/p44-ledchain.c:463-478 | the waiting frame becomes the current one, nothing waits, and the channel is busy |
| Transmission.StartSendingFacts | p44-ledchain/src/p44-ledchain.c:460-493 | pattern 0 is loaded iff a frame was waiting, and the state stays consistent |
| Transmission.StartLoadsFirstPattern | p44-ledchain/src/p44-ledchain.c:460-493 | with a waiting frame: busy, one more update, retries and timeout zero, max delay 0, min delay maxTPassive, the frame current, pattern 0 loaded and due at now+its time, events disable, configure (T0Active/25, TPassive_min/25), disable, load 0; with none: only a disable and nothing else changes |
| Transmission.Timer | p44-ledchain/src/p44-ledchain.c:496-523 | the timer keeps the pattern indices in bounds, and on a ready channel changes nothing and has no hardware effect |
| Transmission.TimerConsistent | p44-ledchain/src/p44-ledchain.c:496-523 | the timer keeps the state machine's invariant |
| Transmission.Irq | p44-ledchain/src/p44-ledchain.c:553-604 | the interrupt changes neither the limits, nor whether the channel is busy, nor the waiting frame |
| Transmission.IrqConsistent | p44-ledchain/src/p44-ledchain.c:553-604 | the interrupt keeps the state machine's invariant |
| Transmission.Retry | p44-ledchain/src/p44-ledchain.c:558-572 | a late interrupt counts one attempt more, drops the rest of the frame iff the budget is used up, and arms the timer for TReset/2·3 |
| Transmission.FrameDone | p44-ledchain/src/p44-ledchain.c:590-595 | a completed frame's duration is `(elapsed·131)>>17` µs, and the minimum only falls and the maximum only rises |
| Transmission.EarlyIrqIsLate | p44-ledchain/src/p44-ledchain.c:557-558 | an interrupt before the expected time has a huge u32 delay and counts as late |
| Transmission.LateIrqRestartsFrame | p44-ledchain/src/p44-ledchain.c:557-572 | a late interrupt within the budget counts a retry, records the delay, arms the timer, and the timer sends the frame again from pattern 0 |
| Transmission.ExhaustedFrameIsDropped | p44-ledchain/src/p44-ledchain.c:563-570 | a late interrupt that uses up the budget drops the rest of the frame and counts an error; the timer then starts the waiting frame or makes the channel ready |
| Transmission.CompletionStats | p44-ledchain/src/p44-ledchain.c:586-600 | an interrupt in time with nothing left completes the frame: no current frame, the duration recorded with min ≤ last ≤ max, one more interrupt counted, a disable and the reset-time timer |
| Transmission.NewMinimumLeavesMaximum | p44-ledchain/src/p44-ledchain.c:576-581 | a delay that sets a new minimum leaves the maximum as it was |
| Transmission.MaxBelowMinAfterFirstIrq | p44-ledchain/src/p44-ledchain.c:576-581 | the first in-time interrupt of a frame with a non-zero delay sets the minimum delay and leaves the maximum at 0, below it |
| Transmission.Stop | p44-ledchain/src/p44-ledchain.c:619-635 | nothing is left to send, no frame is current or waiting, busy is unchanged and returned |
| Transmission.Preempt | p44-ledchain/src/p44-ledchain.c:821-825 | the start of `update_leds` stops all sending and counts an overrun iff the channel was busy |
| Transmission.Schedule | p44-ledchain/src/p44-ledchain.c:639-653 | on a busy channel the frame only waits, with no hardware effect; on a ready channel it starts at once, as `Transmission.StartSending` of the waiting frame |
| Transmission.ReadyChannelSendsFrame | p44-ledchain/src/p44-ledchain.c:639-653 | a frame scheduled on a ready channel is loaded as patterns 0..n-1 and completes with no retry when every interrupt comes in time |
| Transmission.ScheduleConsistent | p44-ledchain/src/p44-ledchain.c:639-653 | scheduling a frame whose patterns take time keeps the invariant |
| Transmission.LatestFrameWins | p44-ledchain/src/p44-ledchain.c:619-653 | of two frames scheduled on a busy channel, the timer starts the second, from pattern 0 |
| Transmission.OnTimeFrameDelivered | p44-ledchain/src/p44-ledchain.c:553-604 | when every interrupt comes in time, the rest of the frame is loaded in order, then completed, with no retry or error |
| Transmission.FrameSentInOrder | p44-ledchain/src/p44-ledchain.c:460-604 | a frame started on a ready channel whose interrupts all come in time is loaded as patterns 0, 1, …, n-1, then completed with no retry |
| Driver.LedChain.constructor | p44-ledchain/src/p44-ledchain.c:1030-1183 | a new channel is idle with zero statistics except the shortest update duration (ten seconds), and has the corrected buffer of cleared patterns |
| Driver.LedChain.SendNextPattern | p44-ledchain/src/p44-ledchain.c:412-432 | the record changes as `Transmission.SendNext` says, with its result and events |
| Driver.LedChain.SendFirstPattern | p44-ledchain/src/p44-ledchain.c:436-456 | the record changes as `Transmission.SendFirst` says |
| Driver.LedChain.StartSendingPatterns | p44-ledchain/src/p44-ledchain.c:460-493 | the record changes as `Transmission.StartSending` says |
| Driver.LedChain.TimerFired | p44-ledchain/src/p44-ledchain.c:496-523 | the record changes as `Transmission.Timer` says |
| Driver.LedChain.Interrupt | p44-ledchain/src/p44-ledchain.c:553-604 | the record changes as `Transmission.Irq` says |
| Driver.LedChain.RetryLater | p44-ledchain/src/p44-ledchain.c:558-572 | the record changes as `Transmission.Retry` says |
| Driver.LedChain.SendNextInTime | p44-ledchain/src/p44-ledchain.c:573-602 | the delay statistics are updated and the record changes as `Transmission.Advance` says |
| Driver.LedChain.StopSendingPatterns | p44-ledchain/src/p44-ledchain.c:619-635 | the record changes as `Transmission.Stop` says, which also gives the result |
| Driver.LedChain.ScheduleNewPatterns | p44-ledchain/src/p44-ledchain.c:639-653 | the record changes as `Transmission.Schedule` says, and chip, layout and buffer stay |
| Driver.LedChain.IsReady | p44-ledchain/src/p44-ledchain.c:656-665 | ready iff not busy |
| Driver.LedChain.InitBitGenerator | p44-ledchain/src/p44-ledchain.c:673-680 | nothing remains to send and the cursor is at the start of the buffer |
| Driver.LedChain.GenerateBit | p44-ledchain/src/p44-ledchain.c:684-730 | the cursor and buffer change as `Generator.Bit` says |
| Driver.LedChain.GenerateInputBit | p44-ledchain/src/p44-ledchain.c:738-758 | one input bit's slots are written as `Generator.InputBit` says |
| Driver.LedChain.GenerateBits | p44-ledchain/src/p44-ledchain.c:734-761 | the word's bits, MSB first, are written as `Generator.Feed` says |
| Driver.LedChain.FillCurrentWord | p44-ledchain/src/p44-ledchain.c:772-782 | the current word is filled as `Generator.FillWord` says |
| Driver.LedChain.FinishBitGenerator | p44-ledchain/src/p44-ledchain.c:765-796 | the last pattern is closed as `Generator.Finish` says and the number of patterns is returned |
| Driver.LedChain.EncodeLed | p44-ledchain/src/p44-ledchain.c:893-905 | one LED's reordered bits are fed, keeping the loop invariant |
| Driver.LedChain.EncodeLeds | p44-ledchain/src/p44-ledchain.c:892-906 | the bits of the frame's LEDs are fed in order |
| Driver.LedChain.GenerateFrame | p44-ledchain/src/p44-ledchain.c:890-908 | the buffer starts with exactly the encoded patterns of the frame, their number is returned, and nothing else of the record but the cursor changes |
| Driver.LedChain.EncodeFrame | p44-ledchain/src/p44-ledchain.c:867-908 | the buffer starts with the frame's patterns, all of which take time, and the invariant holds |
| Driver.LedChain.TakeFrameSettings | p44-ledchain/src/p44-ledchain.c:829-867 | the frame is accepted iff `Update.FrameSettings` accepts it, and the record then holds those settings; a rejected frame changes nothing |
| Driver.LedChain.SendFrame | p44-ledchain/src/p44-ledchain.c:867-941 | the frame's patterns are in the buffer and scheduled as `Transmission.Schedule` says |
| Driver.LedChain.UpdateLeds | p44-ledchain/src/p44-ledchain.c:805-942 | the send in flight is stopped with an overrun counted iff busy (`Transmission.Preempt`); a rejected frame changes nothing more; an accepted one leaves its settings, its encoded patterns at the start of the buffer, and the frame scheduled; the invariant holds |
| Driver.LedChain.Open | p44-ledchain/src/p44-ledchain.c:962-969 | a new reader starts at the beginning of the status text |
| Driver.LedChain.Read | p44-ledchain/src/p44-ledchain.c:996-1014 | a read returns the next chunk of the status text as `Status.ReadChunk` says, and moves the read position |
| Status.ReadChunk | p44-ledchain/src/p44-ledchain.c:996-1014 | at or past the end nothing is returned and the position goes back to 0; otherwise min(count, len-read_idx) bytes, and the position moves past them |
| Status.ReadsReassemble | p44-ledchain/src/p44-ledchain.c:996-1014 | reading until a read returns nothing delivers the rest of the text, each byte once and in order |
| Common.ToU32 | p44-ledchain/src/p44-ledchain.c:557 | conversion to u32 keeps the value modulo 2^32, and keeps values that fit |
| Common.Inc32 | p44-ledchain/src/p44-ledchain.c:472 | a u32 counter increment wraps to 0 after 2^32-1 |
| Common.SignedChar | p44-ledchain/src/p44-ledchain.c:832 | a plain `char` byte reads as -128..127, negative iff the byte is ≥ 128 |
| PowerDock.ConvertBatteryInputsToLevel | power-dock/src/power-dock.c:44-69 | the level is 0..4, and 0 iff an input is not a logic level |
| PowerDock.IndicatorOutputs | power-dock/src/power-dock.c:45-52 | the truth table gives logic levels, with level1 high iff the level is 3 or 4 |
| PowerDock.LevelRoundTrip | power-dock/src/power-dock.c:45-66 | every level 1..4 is read back from its indicator outputs |
| PowerDock.InputsRoundTrip | power-dock/src/power-dock.c:53-68 | every pair of logic levels reads as a level 1..4, whose table row is that pair |
| PowerDock.DistinctLevels | power-dock/src/power-dock.c:55-66 | the four valid input pairs give four different levels |

## Left out

- Register I/O: each routine's register writes become `HwEvent`s (disable, load pattern k, configure, arm the timer). Interrupt enable, acknowledge and the `PWMCON` mode bits are not modelled.
- The interrupt handler's loop over the four PWM channels and its status bits: `Driver.LedChain.Interrupt` is the body for one channel whose interrupt is pending.
- Locks, `local_irq_save` and the hrtimer: each entry point is one atomic method, and interleavings are not modelled. Clock reads are the parameter `now`.
- Kernel glue: module parameters, init and exit, cdev, class and device creation, `ioremap`, IRQ requests, `release`, `write` (which only calls `update_leds`), and `p44ledchain_remove_device`. The allocation failures of `p44ledchain_add_device` are left out with them.
- The status text itself: its `snprintf` formatting and the 512-byte buffer. `Status` and `Driver.LedChain.Read` take the text as a parameter.
- Debug output: `printk`, `SEQ_TRACE`, `DATA_DUMP` and `STAT_INFO`. The low passive-time warning of `p44ledchain_add_device` is a flag of the configuration.
- The descriptor `name` fields: only the status text and the log show them.
- The PWM channel number and the module parameters' `unsigned int` storage. Parameters are given as the `int` values the driver reads from them.
- `Driver.LedChain.constructor`: before the first frame, a variable-type channel has no descriptors (both are NULL in the driver). The model gives it WS2812/GRB. Nothing reads them, since no frame is sent before a header sets them.
- `Driver.LedChain.GenerateBit`: requires room for the slot in the buffer (`outPtr` below the buffer's length), which the driver never checks before it writes (`p44-ledchain/src/p44-ledchain.c:687-701`); a write past an `array` cannot be expressed. The method does not model the safeguard branch for an exhausted buffer (`p44-ledchain/src/p44-ledchain.c:720-725`); that branch is modelled on values by `Generator.BitAsWritten`. With the corrected buffer size every frame fits (`Update.FrameFits`), so neither the requirement nor the safeguard is reached from `update_leds`.
- `Driver.LedChain.FinishBitGenerator`: requires room for the pattern it completes (`bitCount > 0` implies `outPtr` below the buffer's length). The driver writes that pattern without a check (`p44-ledchain/src/p44-ledchain.c:784-792`); a write past an `array` cannot be expressed. With the corrected buffer size every frame leaves that room (`Update.FrameFits`, `Driver.LedChain.GenerateFrame`).
- `Driver.LedChain.UpdateLeds`: does not state that the patterns after the new frame keep their old contents, only that every pattern stays well formed.
- The `u32` type of `nanosecs` and of a pattern's duration: a pattern's time is at most 64 slots of a few hundred ns, far below 2^32.
- The driver's `outPtr` and the LED byte position `inPtr` are indices. `Frame.Offset` stands for the byte offset k·channels; `Frame.OffsetIsProduct` proves the two equal.
- `update_leds` is one routine in the driver. The model splits it into `Driver.LedChain.UpdateLeds`, `TakeFrameSettings`, `SendFrame`, `EncodeFrame`, `GenerateFrame`, `EncodeLeds` and `EncodeLed`, in the order of its steps.
- The rest of `p44ledchaintest` and of the Power Dock utility: GPIO access, sleeps and printing.

## Findings

| source | as written | input that shows it | evidently intended | confidence | as-written member | corrected member |
|---|---|---|---|---|---|---|
| p44-ledchain/src/p44-ledchain.c:1130-1136 | the buffer gets `num_leds·channels·8·3/64` patterns: 3 slots per LED bit, rounded down | a channel of one RGB LED with the frame FF FF FF: its 24 one-bits need more than 64 slots (two patterns), while the buffer holds one pattern. The first write past the buffer is by `generateBit`: the passive slot inserted at slot 63 for the 22nd bit completes pattern 0, and that bit's active slots go to `outBuf[1]` (:741-745, :687-701) | room for 4 slots per bit (a 1 bit due at slot 63 takes 4), rounded up to whole patterns | high; not executed | Config.BufferTooSmall | Config.EncodeFits |
| p44-ledchain/src/p44-ledchain.c:720-725 | the safeguard compares the pattern index `outPtr-outBuf` with `outBufSize`, a byte count, before `outPtr++` | a fixed RGB channel of 112 LEDs with all 336 bytes FF: the buffer is 1512 bytes, 126 patterns; the frame's 2688 one-bits take 128 patterns, and `generateBit` writes slots into `outBuf[126]` and `outBuf[127]`, since no cursor index up to 127 reaches 1512 | the cursor never leaves the buffer: the check compares `outPtr-outBuf+1` with the pattern count `outBufSize/sizeof(PWMPattern_t)` (comparing `outPtr-outBuf` with it would still let `outPtr` reach the end), and the buffer is sized so that the check is never reached (`Update.FrameFits`) | high; not executed | Update.GuardLetsOverrunThrough | Generator.BitGuarded |
