// One LED chain channel of p44-ledchain: the device record `struct
// p44ledchain_dev`, with the send state machine that the timer and the PWM
// interrupt drive, the bit generator that fills the output buffer, the frame
// handling of `update_leds` and the chunked status read.
//
// Every method changes the record as the driver's function does. The send
// state machine's methods are proved to take the record exactly where the
// functions of module Transmission take its `Engine` part, and to return the
// hardware effects those functions list; the generator's methods are proved
// to keep the output buffer equal to the patterns of the slots generated so
// far.
module Driver {
  import opened Common
  import opened LedTypes
  import opened Bits
  import opened BitPattern
  import opened Config
  import opened Frame
  import opened Transmission
  import opened Generator
  import opened Update
  import opened Status

  class LedChain {
    // configuration
    const inverted: bool
    const numLeds: nat
    const selection: LedSelection  // chipType and layoutType as configured; Variable = ledlayout_none
    var chipDesc: ChipDescriptor   // `*ledChipDesc`
    var layoutDesc: LayoutDescriptor  // `*ledLayoutDesc`
    var maxTPassiveNs: int
    var maxSendRetries: int
    // output buffer
    const outBuf: array<Pattern>
    var outPtr: nat                // index into outBuf, shared by the generator and the sender
    var numPatterns: nat
    var nextPatterns: nat
    var remaining: nat
    // pattern generator
    var outBit: nat                // outMask, as the position of its one bit (see Generator.MaskBit)
    var bitCount: nat
    var nanosecs: nat
    // status read
    var readIdx: nat
    // timing
    var notReady: bool
    var expectedSentAt: int
    var sendRetries: int
    var updateStartedAt: int
    var stats: Stats

    /** The table entries the descriptors are. */
    ghost var chip: LedChip
    ghost var layout: LedLayout

    /** The part of the record the send state machine works on. */
    function SendState(): Engine
      reads this
    {
      Engine(notReady, numPatterns, nextPatterns, remaining, outPtr, expectedSentAt, sendRetries,
             maxSendRetries, maxTPassiveNs, updateStartedAt, stats)
    }

    /** The chip and layout in use, with their descriptors. */
    ghost function Setup(): (ChipDescriptor, LayoutDescriptor, LedChip, LedLayout)
      reads this
    {
      (chipDesc, layoutDesc, chip, layout)
    }

    /** The record's invariant: the state machine's, the configured chip and layout of a
        fixed-type channel, and a buffer of the size the channel's LED count needs. */
    ghost predicate Valid()
      reads this, outBuf
    {
      && Consistent(SendState(), outBuf[..])
      && chipDesc == ChipDesc(chip) && layoutDesc == LayoutDesc(layout)
      && (selection.Fixed? ==> chip == selection.chip && layout == selection.layout)
      && 1 <= numLeds <= MaxLeds
      && outBuf.Length == OutBufPatterns(numLeds, SizingChannels(selection))
      && AllWellFormed(outBuf[..])
    }

    /** The channel as `p44ledchain_add_device` creates it from a configuration: idle,
        statistics zero except the shortest update duration (ten seconds), and a cleared
        buffer of the size the LED count needs. A variable-type channel has no chip and
        layout before its first frame; the model gives it WS2812 and GRB, which nothing
        reads before a frame replaces them. */
    constructor (cfg: DeviceConfig)
      requires 1 <= cfg.numLeds <= MaxLeds
      ensures Valid() && fresh(outBuf)
      ensures forall k :: 0 <= k < outBuf.Length ==> outBuf[k] == Pattern(ClearWord(), ClearWord(), 0)
      ensures inverted == cfg.inverted && numLeds == cfg.numLeds && selection == cfg.selection
      ensures SendState() == Engine(false, 0, 0, 0, 0, 0, 0, cfg.maxSendRetries, cfg.maxTPassiveNs, 0,
                                    Stats(0, 0, 0, 0, 0, 0, 0, 0, 0, InitialMinUpdateUs, 0))
      ensures readIdx == 0
    {
      inverted := cfg.inverted;
      numLeds := cfg.numLeds;
      selection := cfg.selection;
      var c, l := WS2812, GRB;
      if cfg.selection.Fixed? {
        c, l := cfg.selection.chip, cfg.selection.layout;
      }
      chip, layout := c, l;
      chipDesc := ChipDesc(c);
      layoutDesc := LayoutDesc(l);
      maxSendRetries := cfg.maxSendRetries;
      maxTPassiveNs := cfg.maxTPassiveNs;
      outBuf := new Pattern[OutBufPatterns(cfg.numLeds, SizingChannels(cfg.selection))]
                  (_ => Pattern(ClearWord(), ClearWord(), 0));
      outPtr, numPatterns, nextPatterns, remaining := 0, 0, 0, 0;
      outBit, bitCount, nanosecs := WordSlots, 0, 0;
      readIdx := 0;
      notReady := false;
      expectedSentAt, sendRetries, updateStartedAt := 0, 0, 0;
      stats := Stats(0, 0, 0, 0, 0, 0, 0, 0, 0, InitialMinUpdateUs, 0);
    }

    // -------------------------------------------------------------------------
    // Sending

    /** `sendNextPattern`. */
    method SendNextPattern() returns (expectedNs: nat, ghost evs: seq<HwEvent>)
      requires InBounds(SendState(), outBuf.Length)
      modifies `notReady, `numPatterns, `nextPatterns, `remaining, `outPtr, `expectedSentAt, `sendRetries,
        `updateStartedAt, `stats
      ensures var s := SendNext(old(SendState()), old(outBuf[..]));
        SendState() == s.engine && expectedNs == s.ns && evs == s.events
    {
      expectedNs := 0;
      evs := [Disable];
      if remaining > 0 {
        evs := evs + [Load(outPtr)];
        expectedNs := outBuf[outPtr].nanosecs;
        outPtr := outPtr + 1;
        remaining := remaining - 1;
      }
    }

    /** `sendFirstPattern`. */
    method SendFirstPattern(now: int) returns (ghost evs: seq<HwEvent>)
      requires InBounds(SendState(), outBuf.Length)
      modifies `notReady, `numPatterns, `nextPatterns, `remaining, `outPtr, `expectedSentAt, `sendRetries,
        `updateStartedAt, `stats
      ensures var s := SendFirst(old(SendState()), old(outBuf[..]), now);
        SendState() == s.engine && evs == s.events
    {
      outPtr := 0;
      remaining := numPatterns;
      var ns;
      ns, evs := SendNextPattern();
      if ns != 0 {
        expectedSentAt := now + ns;
      } else {
        numPatterns := 0;
      }
    }

    /** `startSendingPatterns`. */
    method StartSendingPatterns(now: int) returns (ghost evs: seq<HwEvent>)
      requires InBounds(SendState(), outBuf.Length)
      modifies `notReady, `numPatterns, `nextPatterns, `remaining, `outPtr, `expectedSentAt, `sendRetries,
        `updateStartedAt, `stats
      ensures var s := StartSending(old(SendState()), old(outBuf[..]), chipDesc, inverted, now);
        SendState() == s.engine && evs == s.events
    {
      ghost var e0 := SendState();
      numPatterns := nextPatterns;
      nextPatterns := 0;
      evs := [Disable];
      if numPatterns > 0 {
        notReady := true;
        sendRetries := 0;
        stats := stats.(updates := Inc32(stats.updates), lastTimeoutNs := 0, lastUpdateUs := 0,
                        maxIrqDelay := 0, minIrqDelay := ToU32(maxTPassiveNs));
        updateStartedAt := now;
        evs := evs + [ConfigureFor(chipDesc, inverted)];
        assert SendState() == Started(e0, now);
        var first := SendFirstPattern(now);
        evs := evs + first;
      }
    }

    /** `p44ledchain_timer_func`. */
    method TimerFired(now: int) returns (ghost evs: seq<HwEvent>)
      requires InBounds(SendState(), outBuf.Length)
      modifies `notReady, `numPatterns, `nextPatterns, `remaining, `outPtr, `expectedSentAt, `sendRetries,
        `updateStartedAt, `stats
      ensures var s := Timer(old(SendState()), old(outBuf[..]), chipDesc, inverted, now);
        SendState() == s.engine && evs == s.events
    {
      evs := [];
      if notReady {
        if remaining != 0 {
          evs := SendFirstPattern(now);
        } else {
          notReady := false;
          evs := StartSendingPatterns(now);
        }
      }
    }

    /** The body of `p44ledchain_pwm_interrupt` for this channel's finish interrupt:
        the delay of the interrupt decides between a retry and the next pattern. */
    method Interrupt(now: int) returns (ghost evs: seq<HwEvent>)
      requires InBounds(SendState(), outBuf.Length)
      modifies `notReady, `numPatterns, `nextPatterns, `remaining, `outPtr, `expectedSentAt, `sendRetries,
        `updateStartedAt, `stats
      ensures var s := Irq(old(SendState()), old(outBuf[..]), chipDesc, now);
        SendState() == s.engine && evs == s.events
    {
      var irqDelayNs := ToU32(now - expectedSentAt);
      if irqDelayNs > ToU32(maxTPassiveNs) {
        evs := RetryLater(now, irqDelayNs);
      } else {
        evs := SendNextInTime(now, irqDelayNs);
      }
    }

    /** The interrupt came too late: the attempt failed. */
    method RetryLater(now: int, irqDelayNs: U32) returns (ghost evs: seq<HwEvent>)
      requires irqDelayNs == IrqDelay(SendState(), now)
      modifies `notReady, `numPatterns, `nextPatterns, `remaining, `outPtr, `expectedSentAt, `sendRetries,
        `updateStartedAt, `stats
      ensures var s := Retry(old(SendState()), chipDesc, now);
        SendState() == s.engine && evs == s.events
    {
      sendRetries := sendRetries + 1;
      stats := stats.(retries := Inc32(stats.retries), lastTimeoutNs := irqDelayNs);
      if sendRetries >= maxSendRetries {
        remaining := 0;
        stats := stats.(errors := Inc32(stats.errors));
      }
      evs := [ArmTimer(chipDesc.tResetNs / 2 * 3)];
    }

    /** The interrupt came in time: record its delay and load the next pattern, or
        complete the frame. */
    method SendNextInTime(now: int, irqDelayNs: U32) returns (ghost evs: seq<HwEvent>)
      requires InBounds(SendState(), outBuf.Length)
      requires irqDelayNs == IrqDelay(SendState(), now)
      modifies `notReady, `numPatterns, `nextPatterns, `remaining, `outPtr, `expectedSentAt, `sendRetries,
        `updateStartedAt, `stats
      ensures var e := old(SendState());
        var s := Advance(e.(stats := TrackDelay(e.stats, irqDelayNs)), old(outBuf[..]), chipDesc, now);
        SendState() == s.engine && evs == s.events
    {
      stats := TrackDelay(stats, irqDelayNs);
      var expectedNs;
      expectedNs, evs := SendNextPattern();
      if expectedNs != 0 {
        expectedSentAt := now + expectedNs;
      } else {
        numPatterns := 0;
        stats := FrameDone(stats, now, updateStartedAt);
        evs := evs + [ArmTimer(chipDesc.tResetNs / 2 * 3)];
      }
      stats := stats.(irqCount := Inc32(stats.irqCount));
    }

    /** `stopSendingPatterns`: returns whether the channel was busy. */
    method StopSendingPatterns() returns (wasBusy: bool)
      modifies `notReady, `numPatterns, `nextPatterns, `remaining, `outPtr, `expectedSentAt, `sendRetries,
        `updateStartedAt, `stats
      ensures (SendState(), wasBusy) == Stop(old(SendState()))
    {
      wasBusy := notReady;
      remaining := 0;
      numPatterns := 0;
      nextPatterns := 0;
    }

    /** `scheduleNewPatterns`. */
    method ScheduleNewPatterns(n: nat, now: int) returns (ghost evs: seq<HwEvent>)
      requires InBounds(SendState(), outBuf.Length) && n <= outBuf.Length
      modifies `notReady, `numPatterns, `nextPatterns, `remaining, `outPtr, `expectedSentAt, `sendRetries,
        `updateStartedAt, `stats
      ensures var s := Schedule(old(SendState()), n, old(outBuf[..]), chipDesc, inverted, now);
        SendState() == s.engine && evs == s.events
      ensures Setup() == old(Setup()) && outBuf[..] == old(outBuf[..])
    {
      evs := [];
      nextPatterns := n;
      if !notReady {
        evs := StartSendingPatterns(now);
      }
    }

    /** `isReady`. */
    method IsReady() returns (ready: bool)
      ensures ready == Transmission.IsReady(SendState())
    {
      ready := !notReady;
    }

    // -------------------------------------------------------------------------
    // Generating patterns

    /** The part of the record the bit generator works on. */
    function GenState(): Gen
      reads this, outBuf
    {
      Gen(outBuf[..], outPtr, bitCount, outBit, nanosecs)
    }

    /** `initBitGenerator`: nothing left to send, the cursor at the start of the buffer
        with the mask 0. */
    method InitBitGenerator()
      modifies `remaining, `outPtr, `outBit, `bitCount, `nanosecs
      ensures SendState() == old(SendState()).(remaining := 0, outPtr := 0)
      ensures GenState() == Gen(outBuf[..], 0, 0, WordSlots, 0)
    {
      remaining := 0;
      outPtr := 0;
      outBit := WordSlots;
      bitCount := 0;
      nanosecs := 0;
    }

    /** `generateBit`: writes one slot at the cursor; the 64th slot of a pattern
        completes it with its time, and the cursor moves on to the next pattern. */
    method GenerateBit(aBit: bool)
      requires Tidy(GenState()) && Written(GenState()) < PatternSlots * outBuf.Length
      modifies outBuf, `outPtr, `outBit, `bitCount, `nanosecs
      ensures GenState() == Bit(old(GenState()), aBit, inverted, chipDesc)
    {
      var second := bitCount >= WordSlots;  // `bitCount & 0x20`
      var pt := outBuf[outPtr];
      var word := if second then pt.data1 else pt.data0;
      var om := outBit;
      if om == WordSlots {
        om := 0;
        word := ClearWord();
      }
      word := word[om := aBit != inverted];
      pt := if second then pt.(data1 := word) else pt.(data0 := word);
      outBuf[outPtr] := pt;
      nanosecs := nanosecs + (if aBit then chipDesc.t0ActiveNs else chipDesc.tPassiveMinNs);
      om := om + 1;
      bitCount := bitCount + 1;
      if om == WordSlots {
        if bitCount >= PatternSlots {
          outBuf[outPtr] := pt.(nanosecs := nanosecs);
          nanosecs := 0;
          bitCount := 0;
          outPtr := outPtr + 1;
        }
      }
      outBit := om;
    }

    /** `generateBits`: the low `aNumBits` bits of `aWord`, most significant first, each
        as the slots of the slot rule. */
    method GenerateBits(aWord: bv32, aNumBits: bv8)
      requires 0 < aNumBits <= 32
      requires Tidy(GenState()) && Written(GenState()) + 4 * aNumBits as int <= PatternSlots * outBuf.Length
      modifies outBuf, `outPtr, `outBit, `bitCount, `nanosecs
      ensures GenState() == Feed(old(GenState()), MsbBits(aWord, aNumBits), inverted, chipDesc)
    {
      ghost var g0 := GenState();
      ghost var done: seq<bool> := [];
      var inMask: bv32 := 1 << (aNumBits - 1);
      var n := aNumBits;
      BitsLoopStart(g0, aWord, aNumBits, inverted, chipDesc);
      while n > 0
        // kept as one fact (`== true`) so that it is re-established as a whole by BitsLoopBody
        invariant BitsLoop(g0, aWord, aNumBits, n, inMask, done, GenState(), inverted, chipDesc) == true
      {
        var bit := aWord & inMask != 0;
        BitsLoopBody(g0, aWord, aNumBits, n, inMask, done, GenState(), inverted, chipDesc);
        GenerateInputBit(bit);
        done := done + [bit];
        inMask := inMask >> 1;
        n := n - 1;
      }
      BitsLoopEnd(g0, aWord, aNumBits, inMask, done, GenState(), inverted, chipDesc);
    }

    /** The body of the loop of `generateBits` for one input bit. */
    method GenerateInputBit(bit: bool)
      requires Tidy(GenState()) && Written(GenState()) + 4 <= PatternSlots * outBuf.Length
      modifies outBuf, `outPtr, `outBit, `bitCount, `nanosecs
      ensures GenState() == InputBit(old(GenState()), bit, inverted, chipDesc)
    {
      if bit && bitCount == PatternSlots - 1 {
        GenerateBit(false);
      }
      GenerateBit(true);
      if bit {
        GenerateBit(true);
      }
      if bitCount != 0 {
        GenerateBit(false);
        if !bit && chipDesc.t0PassiveDouble && bitCount != 0 {
          GenerateBit(false);
        }
      }
    }

    /** `finishBitGenerator`: pads the pattern being filled with passive slots to its end
        and moves past it; returns the number of patterns generated. */
    method FinishBitGenerator() returns (count: nat)
      requires Tidy(GenState()) && (bitCount > 0 ==> outPtr < outBuf.Length)
      modifies outBuf, `outPtr, `outBit, `bitCount, `nanosecs
      ensures Finished(old(GenState()), GenState(), inverted, chipDesc) == true && count == outPtr
    {
      if bitCount != 0 {
        FillCurrentWord();
        var pt := outBuf[outPtr];
        if bitCount % PatternSlots != 0 {  // `bitCount & 0x3F`: a dummy passive second word
          pt := pt.(data1 := OutBits(Passives(WordSlots), inverted));
          bitCount := bitCount + WordSlots;
          nanosecs := nanosecs + WordSlots * chipDesc.tPassiveMinNs;
        }
        outBuf[outPtr] := pt.(nanosecs := nanosecs);
        outPtr := outPtr + 1;
      }
      count := outPtr;
    }

    /** The loop of `finishBitGenerator` that writes passive levels into the rest of the
        current word, through `owPtr`, counting each slot and its time. */
    method FillCurrentWord()
      requires Tidy(GenState()) && 0 < bitCount && outPtr < outBuf.Length
      modifies outBuf, `outBit, `bitCount, `nanosecs
      ensures GenState() == FillWord(old(GenState()), inverted, chipDesc)
    {
      ghost var g0 := GenState();
      var second := bitCount >= WordSlots;  // `bitCount & 0x20`: the word owPtr points to
      var pt := outBuf[outPtr];
      var w := if second then pt.data1 else pt.data0;
      assert WellFormed(g0.buf[g0.ptr]);
      ghost var w0, b0, tp := w, outBit, chipDesc.tPassiveMinNs;
      while outBit != WordSlots
        invariant b0 <= outBit <= WordSlots && w == Filled(w0, b0, outBit, inverted)
        invariant bitCount == g0.bitCount + (outBit - b0)
        invariant nanosecs == g0.ns + (outBit - b0) * tp
        modifies `outBit, `bitCount, `nanosecs
        decreases WordSlots - outBit
      {
        w := w[outBit := inverted];
        bitCount := bitCount + 1;
        nanosecs := nanosecs + chipDesc.tPassiveMinNs;
        Distrib(outBit - b0, 1, tp);
        outBit := outBit + 1;
      }
      var pt' := if second then pt.(data1 := w) else pt.(data0 := w);
      assert outBuf[..] == g0.buf;
      outBuf[outPtr] := pt';
      assert outBuf[..] == g0.buf[g0.ptr := pt'];
      FilledWord(g0, w, inverted, chipDesc);
    }

    // -------------------------------------------------------------------------
    // Frames

    /** `update_leds`: the send in progress is stopped (an overrun counted when the
        channel was busy), the frame's settings taken, and, unless the frame is rejected,
        its patterns generated at the start of the buffer and scheduled. */
    method UpdateLeds(buff: seq<bv8>, now: int) returns (ghost evs: seq<HwEvent>)
      requires Valid()
      modifies outBuf, `notReady, `numPatterns, `nextPatterns, `remaining, `outPtr, `expectedSentAt,
        `sendRetries, `updateStartedAt, `stats, `chipDesc, `layoutDesc, `chip, `layout, `maxTPassiveNs,
        `maxSendRetries, `outBit, `bitCount, `nanosecs
      ensures Valid()
      ensures var e := Preempt(old(SendState()));
        var s := FrameSettings(selection, old(chip), old(layout), old(maxTPassiveNs), old(maxSendRetries), buff);
        if s.Err? then
          SendState() == e && evs == [] && Setup() == old(Setup()) && outBuf[..] == old(outBuf[..])
        else
          var frame := FramePatterns(s.value, numLeds, inverted);
          var e' := e.(maxTPassiveNs := s.value.maxTPassiveNs, maxSendRetries := s.value.maxSendRetries);
          && chip == s.value.chip && layout == s.value.layout
          && |frame| <= outBuf.Length && outBuf[..|frame|] == frame
          && var st := Schedule(e'.(outPtr := |frame|), |frame|, outBuf[..], ChipDesc(chip), inverted, now);
            SendState() == st.engine && evs == st.events
    {
      ghost var c0, b0, e0 := Setup(), outBuf[..], SendState();
      var wasBusy := StopSendingPatterns();
      assert Setup() == c0 && outBuf[..] == b0;
      if wasBusy {
        stats := stats.(overruns := Inc32(stats.overruns));
      }
      evs := [];
      ghost var e1 := SendState();
      assert e1 == Preempt(e0);
      ghost var s := FrameSettings(selection, chip, layout, maxTPassiveNs, maxSendRetries, buff);
      assert s == FrameSettings(selection, old(chip), old(layout), old(maxTPassiveNs), old(maxSendRetries), buff);
      var ok, payload := TakeFrameSettings(buff);
      if !ok {
        assert SendState() == e1;
        assert Setup() == c0;
        assert s.Err?;
        return;
      }
      assert SendState() == e1.(maxTPassiveNs := s.value.maxTPassiveNs, maxSendRetries := s.value.maxSendRetries);
      evs := SendFrame(payload, s.value, now);
    }

    /** The end of `update_leds` for a frame with the settings s, which the channel has
        taken: its patterns generated at the start of the buffer and scheduled. */
    method SendFrame(payload: seq<bv8>, ghost s: Settings, now: int) returns (ghost evs: seq<HwEvent>)
      requires Valid() && SendState().numPatterns == 0 && SendState().nextPatterns == 0
      requires SendState().remaining == 0
      requires s.payload == payload && s.chip == chip && s.layout == layout
      modifies outBuf, `notReady, `numPatterns, `nextPatterns, `remaining, `outPtr, `expectedSentAt,
        `sendRetries, `updateStartedAt, `stats, `outBit, `bitCount, `nanosecs
      ensures Valid() && Setup() == old(Setup())
      ensures var frame := FramePatterns(s, numLeds, inverted);
        && |frame| <= outBuf.Length && outBuf[..|frame|] == frame
        && var st := Schedule(old(SendState()).(outPtr := |frame|), |frame|, outBuf[..], ChipDesc(chip), inverted, now);
          SendState() == st.engine && evs == st.events
    {
      ghost var c0 := Setup();
      var n := EncodeFrame(payload, s);
      assert Setup() == c0;
      ghost var frame := FramePatterns(s, numLeds, inverted);
      ghost var buf := outBuf[..];
      ghost var st := Schedule(old(SendState()).(outPtr := |frame|), |frame|, buf, chipDesc, inverted, now);
      assert SendState() == old(SendState()).(outPtr := |frame|) && n == |frame|;
      assert outBuf[..|frame|] == frame;
      ScheduleConsistent(old(SendState()).(outPtr := |frame|), |frame|, buf, chipDesc, inverted, now);
      evs := ScheduleNewPatterns(n, now);
      assert Setup() == c0;
      assert outBuf[..] == buf;
      assert SendState() == st.engine && evs == st.events;
      assert Consistent(SendState(), outBuf[..]);
      assert AllWellFormed(outBuf[..]);
    }

    /** The header part of `update_leds`: a variable-type channel takes chip, layout,
        maximum passive time and, unless 0, retry budget from the frame's header, or
        rejects the frame; a maximum passive time of 0 becomes the chip's. */
    method TakeFrameSettings(buff: seq<bv8>) returns (ok: bool, payload: seq<bv8>)
      requires chipDesc == ChipDesc(chip) && layoutDesc == LayoutDesc(layout)
      requires selection.Fixed? ==> chip == selection.chip && layout == selection.layout
      modifies `chipDesc, `layoutDesc, `chip, `layout, `maxTPassiveNs, `maxSendRetries
      ensures chipDesc == ChipDesc(chip) && layoutDesc == LayoutDesc(layout)
      ensures selection.Fixed? ==> chip == selection.chip && layout == selection.layout
      ensures var s := FrameSettings(selection, old(chip), old(layout), old(maxTPassiveNs), old(maxSendRetries), buff);
        && ok == s.Ok?
        && (ok ==> s.value == Settings(chip, layout, maxTPassiveNs, maxSendRetries, payload))
        && (!ok ==> SendState() == old(SendState()) && Setup() == old(Setup()))
    {
      payload := buff;
      if selection.Variable? {  // `layoutType == ledlayout_none`
        var h := DecodeHeader(buff);
        if h.Err? {
          return false, buff;
        }
        chip := h.value.chip;
        layout := h.value.layout;
        chipDesc := ChipDesc(h.value.chip);
        layoutDesc := LayoutDesc(h.value.layout);
        maxTPassiveNs := h.value.maxTPassiveNs;
        if h.value.retries != 0 {
          maxSendRetries := h.value.retries;
        }
        payload := buff[h.value.payloadStart..];
      }
      if maxTPassiveNs == 0 {
        maxTPassiveNs := chipDesc.tPassiveMaxNs;
      }
      ok := true;
    }

    /** The LED part of `update_leds` for a frame with the settings s, which the channel
        has taken: as many whole LEDs as the payload holds, at most the channel's,
        encoded at the start of the buffer; returns the number of patterns. */
    method EncodeFrame(payload: seq<bv8>, ghost s: Settings) returns (n: nat)
      requires Valid() && SendState().numPatterns == 0 && SendState().nextPatterns == 0
      requires SendState().remaining == 0
      requires s.payload == payload && s.chip == chip && s.layout == layout
      modifies outBuf, `remaining, `outPtr, `outBit, `bitCount, `nanosecs
      ensures Valid() && SendState() == old(SendState()).(outPtr := n)
      ensures n == |FramePatterns(s, numLeds, inverted)| <= outBuf.Length
      ensures outBuf[..n] == FramePatterns(s, numLeds, inverted) && Durations(outBuf[..], n)
    {
      var ncomp := layoutDesc.channels;
      var leds := LedCount(|payload|, ncomp, numLeds);
      Capacity(leds, ncomp, numLeds, SizingChannels(selection));
      FrameFits(selection, s, numLeds, inverted);
      n := GenerateFrame(payload, leds);
      ghost var frame := FramePatterns(s, numLeds, inverted);
      assert leds == FrameLeds(s, numLeds) && chipDesc == ChipDesc(s.chip);
      assert frame == Encode(FrameBits(payload, layout, leds), chipDesc, inverted);
      assert outBuf[..n] == frame;
      StoredFrameTakesTime(outBuf[..], s, numLeds, inverted);
      assert SendState() == old(SendState()).(outPtr := n);
      assert Consistent(SendState(), outBuf[..]);
    }

    /** The generator run of `update_leds`: from the start of the buffer, the word of
        each of the first `leds` LEDs fed to `generateBits`, then the last pattern closed;
        returns the number of patterns, which are the encoding of the LEDs' bytes. */
    method GenerateFrame(payload: seq<bv8>, leds: nat) returns (count: nat)
      requires AllWellFormed(outBuf[..]) && layoutDesc == LayoutDesc(layout)
      requires Offset(leds, layoutDesc.channels) <= |payload|
      requires 32 * Offset(leds, layoutDesc.channels) <= PatternSlots * outBuf.Length
      modifies outBuf, `remaining, `outPtr, `outBit, `bitCount, `nanosecs
      ensures SendState() == old(SendState()).(remaining := 0, outPtr := count)
      ensures chipDesc == old(chipDesc) && layoutDesc == old(layoutDesc) && chip == old(chip) && layout == old(layout)
      ensures AllWellFormed(outBuf[..])
      ensures var frame := Encode(FrameBits(payload, layout, leds), chipDesc, inverted);
        count == |frame| <= outBuf.Length && outBuf[..count] == frame
    {
      ghost var c0 := Setup();
      InitBitGenerator();
      assert Setup() == c0;
      ghost var g0, e1 := GenState(), SendState();
      EncodeLeds(payload, leds);
      assert SendState() == e1.(outPtr := outPtr);
      assert Setup() == c0;
      ghost var bits := FrameBits(payload, layout, leds);
      FedFrame(g0.buf, bits, inverted, chipDesc);
      ghost var gm, e2 := GenState(), SendState();
      count := FinishBitGenerator();
      assert SendState() == e2.(outPtr := count);
      assert Setup() == c0;
      FinishedFrame(g0.buf, bits, gm, GenState(), inverted, chipDesc);
    }

    /** The loop of `update_leds`: from the start of the buffer, the word of each of the
        first `leds` LEDs, taken from its record in the order of the layout, fed to
        `generateBits`. */
    method EncodeLeds(payload: seq<bv8>, leds: nat)
      requires layoutDesc == LayoutDesc(layout)
      requires GenState() == Gen(outBuf[..], 0, 0, WordSlots, 0) && AllWellFormed(outBuf[..])
      requires Offset(leds, layoutDesc.channels) <= |payload|
      requires 32 * Offset(leds, layoutDesc.channels) <= PatternSlots * outBuf.Length
      modifies outBuf, `outPtr, `outBit, `bitCount, `nanosecs
      ensures GenState() == Feed(old(GenState()), FrameBits(payload, layout, leds), inverted, chipDesc)
    {
      ghost var g0 := GenState();
      var ncomp := layoutDesc.channels;
      var left := leds;
      var inPtr: nat := 0;
      FrameLoopStart(g0, payload, layout, leds, inverted, chipDesc);
      ghost var done := 0;
      while left > 0
        invariant done + left == leds
        // kept as one fact (`== true`) so that it is re-established as a whole by EncodeLed
        invariant FrameLoop(g0, payload, layout, leds, done, inPtr, GenState(), inverted, chipDesc) == true
        modifies outBuf, `outPtr, `outBit, `bitCount, `nanosecs
      {
        EncodeLed(payload, inPtr, ncomp, g0, leds, done);
        ghost var g := GenState();
        FrameLoopStep(g0, payload, layout, leds, done, inPtr, ncomp, g, inverted, chipDesc);
        inPtr, left, done := inPtr + ncomp, left - 1, done + 1;
        assert FrameLoop(g0, payload, layout, leds, done, inPtr, g, inverted, chipDesc) == true;
      }
      FrameLoopEnd(g0, payload, layout, leds, done, inPtr, GenState(), inverted, chipDesc);
    }

    /** One pass of the loop of `update_leds`: the word of the LED whose record starts at
        `inPtr`, `ncomp * 8` bits wide, fed to `generateBits`. */
    method EncodeLed(payload: seq<bv8>, inPtr: nat, ncomp: nat, ghost g0: Gen, ghost leds: nat, ghost done: nat)
      requires layoutDesc == LayoutDesc(layout) && ncomp == layoutDesc.channels && done < leds
      requires FrameLoop(g0, payload, layout, leds, done, inPtr, GenState(), inverted, chipDesc) == true
      modifies outBuf, `outPtr, `outBit, `bitCount, `nanosecs
      ensures FrameLoop(g0, payload, layout, leds, done + 1, inPtr + ncomp, GenState(), inverted, chipDesc) == true
    {
      FrameLoopBody(g0, payload, layout, leds, done, inPtr, GenState(), inverted, chipDesc);
      var ledword := AssembleLedWord(payload, layoutDesc, inPtr, layout, done);
      GenerateBits(ledword, ByteOf(ncomp * 8));
    }

    // -------------------------------------------------------------------------
    // Status read

    /** `p44ledchain_open`: the next read starts at the beginning of the answer. */
    method Open()
      modifies `readIdx
      ensures readIdx == 0
    {
      readIdx := 0;
    }

    /** `p44ledchain_read` for the status text `ans`: the next part of it, at most
        `count` bytes; at the end nothing, and the read position goes back to the start. */
    method Read(ans: seq<char>, count: nat) returns (data: seq<char>)
      modifies `readIdx
      ensures var c := ReadChunk(|ans|, old(readIdx), count);
        readIdx == c.readIdx && data == if c.bytes == 0 then [] else ans[old(readIdx)..c.readIdx]
    {
      var bytes := |ans|;
      if bytes == 0 || readIdx >= bytes {
        // all read: end of file, and the next read returns the whole answer again
        data := [];
        readIdx := 0;
      } else {
        bytes := bytes - readIdx;
        var start := readIdx;
        if bytes > count {
          bytes := count;
        }
        readIdx := readIdx + bytes;
        data := ans[start..start + bytes];
      }
    }
  }
}
