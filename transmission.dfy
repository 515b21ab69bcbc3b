// The send state machine of p44-ledchain: loading patterns into the PWM unit
// one at a time from the "wave finished" interrupt, detecting a pattern that
// finished too late, retrying the whole frame from a one-shot timer, and
// holding back a new frame until the chain's reset time is over.
//
// Each entry point of the driver is one function from the channel's state
// (and the time `now` it reads from the clock) to the new state and the
// hardware effects, in order. Register accesses become `HwEvent`s.
module Transmission {
  import opened Common
  import opened LedTypes
  import opened BitPattern

  /** What an entry point does to the hardware. */
  datatype HwEvent =
    | Disable                                                         // channel's PWM disabled
    | Load(index: nat)                                                // pattern `index` written to the data registers, PWM re-enabled
    | Configure(inverted: bool, activeTicks: nat, passiveTicks: nat)  // finish interrupt enabled, mode and slot durations set
    | ArmTimer(ns: nat)                                               // one-shot timer started

  /** The statistics counters of a channel, all `u32`. */
  datatype Stats = Stats(
    maxIrqDelay: U32,    // largest interrupt delay that did not cause a retry
    minIrqDelay: U32,    // smallest interrupt delay
    lastTimeoutNs: U32,  // last interrupt delay that caused a retry
    irqCount: U32,
    updates: U32,
    retries: U32,
    errors: U32,
    overruns: U32,
    lastUpdateUs: U32,
    minUpdateUs: U32,
    maxUpdateUs: U32)

  /** The part of a channel's record the send state machine works on. `outPtr` is the
      index of the next pattern to send; times are in nanoseconds. */
  datatype Engine = Engine(
    notReady: bool,      // a frame is being sent or the chain's reset time is not over
    numPatterns: nat,    // patterns of the frame being sent
    nextPatterns: nat,   // patterns of the frame waiting to be sent
    remaining: nat,      // patterns of the current frame not yet loaded
    outPtr: nat,
    expectedSentAt: int, // when the loaded pattern should have been sent
    sendRetries: int,    // attempts of the current frame that failed
    maxSendRetries: int,
    maxTPassiveNs: int,  // longest tolerated delay of the finish interrupt
    updateStartedAt: int,
    stats: Stats)

  /** Result of `sendNextPattern`: the new state, the duration of the loaded pattern
      (0 when nothing was left) and the hardware effects. */
  datatype Sent = Sent(engine: Engine, ns: nat, events: seq<HwEvent>)

  /** Result of an entry point: the new state and the hardware effects. */
  datatype Step = Step(engine: Engine, events: seq<HwEvent>)

  /** The driver's pattern indices stay inside a buffer of `cap` patterns. */
  predicate InBounds(e: Engine, cap: nat)
  {
    && e.numPatterns <= cap && e.nextPatterns <= cap
    && (e.remaining > 0 ==> e.outPtr + e.remaining <= cap)
  }

  /** Every pattern of a frame takes time: the encoder guarantees it. */
  predicate Durations(buf: seq<Pattern>, n: nat)
    requires n <= |buf|
  {
    forall k :: 0 <= k < n ==> buf[k].nanosecs > 0
  }

  /** The state machine's invariant: patterns are left to load only while the channel
      is busy, and they are the tail of the current frame. */
  predicate Consistent(e: Engine, buf: seq<Pattern>)
  {
    && InBounds(e, |buf|)
    && Durations(buf, e.numPatterns) && Durations(buf, e.nextPatterns)
    && (e.remaining > 0 ==> e.notReady && e.outPtr + e.remaining == e.numPatterns)
  }

  /** Timer duration after a frame or a failed attempt: 1.5 times the reset time. */
  function ResetWaitNs(chip: ChipDescriptor): nat
  {
    chip.tResetNs / 2 * 3
  }

  /** The indices of the patterns loaded, in order. */
  function Loads(evs: seq<HwEvent>): seq<nat>
  {
    if evs == [] then []
    else (if evs[0].Load? then [evs[0].index] else []) + Loads(evs[1..])
  }

  /** The pattern indices lo, lo + 1, ..., lo + n - 1. */
  function Range(lo: nat, n: nat): (r: seq<nat>)
    ensures |r| == n && forall i :: 0 <= i < n ==> r[i] == lo + i
    decreases n
  {
    if n == 0 then [] else [lo] + Range(lo + 1, n - 1)
  }

  lemma RangeCons(lo: nat, n: nat)
    requires n > 0
    ensures Range(lo, n) == [lo] + Range(lo + 1, n - 1)
  {
  }

  lemma {:induction false} LoadsConcat(a: seq<HwEvent>, b: seq<HwEvent>)
    ensures Loads(a + b) == Loads(a) + Loads(b)
    decreases |a|
  {
    if a == [] {
      assert a + b == b;
    } else {
      assert (a + b)[0] == a[0];
      assert (a + b)[1..] == a[1..] + b;
      LoadsConcat(a[1..], b);
    }
  }

  lemma LoadsSingle(ev: HwEvent)
    ensures Loads([ev]) == if ev.Load? then [ev.index] else []
  {
    assert [ev][1..] == [];
  }

  lemma LoadsPair(a: HwEvent, b: HwEvent)
    ensures Loads([a, b]) == Loads([a]) + Loads([b])
  {
    LoadsConcat([a], [b]);
    assert [a] + [b] == [a, b];
  }

  // ---------------------------------------------------------------------------
  // Entry points

  /** `sendNextPattern`: disable the PWM, then load the next pattern if one is left. */
  function SendNext(e: Engine, buf: seq<Pattern>): (r: Sent)
    requires InBounds(e, |buf|)
    ensures InBounds(r.engine, |buf|)
    ensures r.ns == 0 <==> e.remaining == 0 || buf[e.outPtr].nanosecs == 0
  {
    if e.remaining > 0 then
      Sent(e.(outPtr := e.outPtr + 1, remaining := e.remaining - 1), buf[e.outPtr].nanosecs, [Disable, Load(e.outPtr)])
    else
      Sent(e, 0, [Disable])
  }

  /** `sendFirstPattern`: rewind to the first pattern of the frame and load it; with
      nothing to send the frame is over at once. */
  function SendFirst(e: Engine, buf: seq<Pattern>, now: int): (r: Step)
    requires InBounds(e, |buf|)
    ensures InBounds(r.engine, |buf|)
  {
    var s := SendNext(e.(outPtr := 0, remaining := e.numPatterns), buf);
    if s.ns != 0 then Step(s.engine.(expectedSentAt := now + s.ns), s.events)
    else Step(s.engine.(numPatterns := 0), s.events)
  }

  /** The state in which `startSendingPatterns` loads the first pattern of a non-empty
      frame: the waiting frame is current, the channel busy, the per-frame statistics
      reset and the update counted. */
  function Started(e: Engine, now: int): (r: Engine)
    ensures r.numPatterns == e.nextPatterns && r.nextPatterns == 0 && r.notReady
  {
    e.(numPatterns := e.nextPatterns, nextPatterns := 0, notReady := true, sendRetries := 0, updateStartedAt := now,
       stats := e.stats.(updates := Inc32(e.stats.updates), lastTimeoutNs := 0, lastUpdateUs := 0,
                         maxIrqDelay := 0, minIrqDelay := ToU32(e.maxTPassiveNs)))
  }

  /** The PWM configured for the chip's slot durations, in 25 ns ticks. */
  function ConfigureFor(chip: ChipDescriptor, inverted: bool): HwEvent
  {
    Configure(inverted, chip.t0ActiveNs / PwmTickNs, chip.tPassiveMinNs / PwmTickNs)
  }

  /** PWM disabled, then configured. */
  function Setup(chip: ChipDescriptor, inverted: bool): seq<HwEvent>
  {
    [Disable, ConfigureFor(chip, inverted)]
  }

  /** `startSendingPatterns`: the waiting frame becomes the current one; a non-empty
      frame marks the channel busy, resets the per-frame statistics, configures the PWM
      and loads the first pattern. */
  function StartSending(e: Engine, buf: seq<Pattern>, chip: ChipDescriptor, inverted: bool, now: int): (r: Step)
    requires InBounds(e, |buf|)
    ensures InBounds(r.engine, |buf|)
    ensures r.engine.nextPatterns == 0
  {
    if e.nextPatterns > 0 then
      var s := SendFirst(Started(e, now), buf, now);
      Step(s.engine, Setup(chip, inverted) + s.events)
    else
      Step(e.(numPatterns := 0, nextPatterns := 0), [Disable])
  }

  /** The one-shot timer: while the channel is busy, a frame with patterns left is sent
      again from the start; otherwise the reset time is over, the channel becomes ready
      and the waiting frame, if any, starts. */
  function Timer(e: Engine, buf: seq<Pattern>, chip: ChipDescriptor, inverted: bool, now: int): (r: Step)
    requires InBounds(e, |buf|)
    ensures InBounds(r.engine, |buf|)
    ensures !e.notReady ==> r == Step(e, [])
  {
    if !e.notReady then Step(e, [])
    else if e.remaining != 0 then SendFirst(e, buf, now)
    else StartSending(e.(notReady := false), buf, chip, inverted, now)
  }

  /** Interrupt delay: how long after the expected time the finish interrupt came,
      truncated to `u32`. */
  function IrqDelay(e: Engine, now: int): U32
  {
    ToU32(now - e.expectedSentAt)
  }

  /** The interrupt came later than the channel tolerates (the `int` bound compared as
      `u32`). */
  predicate TooLate(e: Engine, now: int)
  {
    IrqDelay(e, now) > ToU32(e.maxTPassiveNs)
  }

  /** Minimum and maximum of the accepted interrupt delays; a new minimum is never also
      checked against the maximum. */
  function TrackDelay(st: Stats, delay: U32): Stats
  {
    if delay < st.minIrqDelay then st.(minIrqDelay := delay)
    else if delay > st.maxIrqDelay then st.(maxIrqDelay := delay)
    else st
  }

  /** Duration of the frame in microseconds, `((now - start) * 131) >> 17` on a
      64-bit signed value (the shift rounds down), stored in a `u32`. */
  function UpdateUs(now: int, start: int): U32
  {
    ToU32((now - start) * 131 / 0x2_0000)
  }

  /** Statistics of a completed frame: its duration, and the extremes over all frames. */
  function FrameDone(st: Stats, now: int, start: int): (r: Stats)
    ensures r.lastUpdateUs == UpdateUs(now, start)
    ensures r.minUpdateUs <= st.minUpdateUs && r.maxUpdateUs >= st.maxUpdateUs
  {
    var last := UpdateUs(now, start);
    st.(lastUpdateUs := last,
        maxUpdateUs := if last > st.maxUpdateUs then last else st.maxUpdateUs,
        minUpdateUs := if last < st.minUpdateUs then last else st.minUpdateUs)
  }

  /** A late interrupt counts a retry and arms the timer, which sends the frame again,
      unless the retry budget is used up: then the rest of the frame is dropped and an
      error counted. */
  function Retry(e: Engine, chip: ChipDescriptor, now: int): (r: Step)
    ensures r.events == [ArmTimer(ResetWaitNs(chip))]
    ensures r.engine.sendRetries == e.sendRetries + 1
    ensures r.engine.remaining == if e.sendRetries + 1 >= e.maxSendRetries then 0 else e.remaining
  {
    var tries := e.sendRetries + 1;
    var st := e.stats.(retries := Inc32(e.stats.retries), lastTimeoutNs := IrqDelay(e, now));
    if tries >= e.maxSendRetries then
      Step(e.(sendRetries := tries, remaining := 0, stats := st.(errors := Inc32(st.errors))), [ArmTimer(ResetWaitNs(chip))])
    else
      Step(e.(sendRetries := tries, stats := st), [ArmTimer(ResetWaitNs(chip))])
  }

  /** An interrupt in time, once its delay is recorded: the next pattern is loaded, or,
      when none is left, the frame is complete and the timer armed for the reset time. */
  function Advance(e: Engine, buf: seq<Pattern>, chip: ChipDescriptor, now: int): (r: Step)
    requires InBounds(e, |buf|)
  {
    var s := SendNext(e, buf);
    var e1 := s.engine;
    if s.ns != 0 then
      Step(e1.(expectedSentAt := now + s.ns, stats := e1.stats.(irqCount := Inc32(e1.stats.irqCount))), s.events)
    else
      var st := FrameDone(e1.stats, now, e1.updateStartedAt);
      Step(e1.(numPatterns := 0, stats := st.(irqCount := Inc32(st.irqCount))), s.events + [ArmTimer(ResetWaitNs(chip))])
  }

  /** The interrupt body for one channel: a late interrupt is retried, one in time
      advances the frame. */
  function Irq(e: Engine, buf: seq<Pattern>, chip: ChipDescriptor, now: int): (r: Step)
    requires InBounds(e, |buf|)
    ensures InBounds(r.engine, |buf|)
    ensures r.engine.maxTPassiveNs == e.maxTPassiveNs && r.engine.maxSendRetries == e.maxSendRetries
    ensures r.engine.notReady == e.notReady && r.engine.nextPatterns == e.nextPatterns
  {
    if TooLate(e, now) then Retry(e, chip, now)
    else Advance(e.(stats := TrackDelay(e.stats, IrqDelay(e, now))), buf, chip, now)
  }

  /** `stopSendingPatterns`: nothing more is sent of the current or the waiting frame;
      the result is whether the channel was busy. */
  function Stop(e: Engine): (r: (Engine, bool))
    ensures r.1 == e.notReady && r.0.notReady == e.notReady
    ensures r.0.remaining == 0 && r.0.numPatterns == 0 && r.0.nextPatterns == 0
  {
    (e.(remaining := 0, numPatterns := 0, nextPatterns := 0), e.notReady)
  }

  /** The start of `update_leds`: the send in progress stopped, and an overrun counted
      when the channel was still busy with it. */
  function Preempt(e: Engine): (r: Engine)
    ensures r.notReady == e.notReady && r.numPatterns == 0 && r.nextPatterns == 0 && r.remaining == 0
    ensures r.stats.overruns == if e.notReady then Inc32(e.stats.overruns) else e.stats.overruns
  {
    var stopped := Stop(e).0;
    if e.notReady then stopped.(stats := stopped.stats.(overruns := Inc32(stopped.stats.overruns)))
    else stopped
  }

  /** `scheduleNewPatterns`: the frame of n patterns waits for the channel, and starts
      at once when the channel is ready. */
  function Schedule(e: Engine, n: nat, buf: seq<Pattern>, chip: ChipDescriptor, inverted: bool, now: int): (r: Step)
    requires InBounds(e, |buf|) && n <= |buf|
    ensures InBounds(r.engine, |buf|)
    ensures e.notReady ==> r == Step(e.(nextPatterns := n), [])
    ensures !e.notReady ==> r == StartSending(e.(nextPatterns := n), buf, chip, inverted, now)
  {
    var e1 := e.(nextPatterns := n);
    if !e1.notReady then StartSending(e1, buf, chip, inverted, now) else Step(e1, [])
  }

  /** `isReady`. */
  function IsReady(e: Engine): bool
  {
    !e.notReady
  }

  // ---------------------------------------------------------------------------
  // Properties

  /** `sendNextPattern` loads pattern `outPtr` when one is left, and nothing otherwise. */
  lemma SendNextLoads(e: Engine, buf: seq<Pattern>)
    requires InBounds(e, |buf|)
    ensures Loads(SendNext(e, buf).events) == if e.remaining > 0 then [e.outPtr] else []
  {
    LoadsPair(Disable, Load(e.outPtr));
    LoadsSingle(Disable);
    LoadsSingle(Load(e.outPtr));
  }

  /** `sendFirstPattern` loads pattern 0 of a non-empty frame, and keeps the invariant of
      a busy channel. */
  lemma SendFirstFacts(e: Engine, buf: seq<Pattern>, now: int)
    requires InBounds(e, |buf|)
    ensures Loads(SendFirst(e, buf, now).events) == if e.numPatterns > 0 then [0] else []
    ensures Consistent(e.(remaining := 0), buf) && e.notReady ==> Consistent(SendFirst(e, buf, now).engine, buf)
  {
    SendNextLoads(e.(outPtr := 0, remaining := e.numPatterns), buf);
  }

  /** `startSendingPatterns` loads pattern 0 of a non-empty frame and nothing else, and
      keeps the invariant. */
  lemma StartSendingFacts(e: Engine, buf: seq<Pattern>, chip: ChipDescriptor, inverted: bool, now: int)
    requires InBounds(e, |buf|)
    ensures Loads(StartSending(e, buf, chip, inverted, now).events) == if e.nextPatterns > 0 then [0] else []
    ensures Consistent(e, buf) && e.remaining == 0 ==> Consistent(StartSending(e, buf, chip, inverted, now).engine, buf)
  {
    LoadsSingle(Disable);
    if e.nextPatterns > 0 {
      var s := SendFirst(Started(e, now), buf, now);
      SendFirstFacts(Started(e, now), buf, now);
      LoadsPair(Disable, ConfigureFor(chip, inverted));
      LoadsSingle(ConfigureFor(chip, inverted));
      LoadsConcat(Setup(chip, inverted), s.events);
    }
  }

  /** The timer keeps the invariant. */
  lemma TimerConsistent(e: Engine, buf: seq<Pattern>, chip: ChipDescriptor, inverted: bool, now: int)
    requires Consistent(e, buf)
    ensures Consistent(Timer(e, buf, chip, inverted, now).engine, buf)
  {
    if e.notReady {
      if e.remaining != 0 {
        SendFirstFacts(e, buf, now);
      } else {
        StartSendingFacts(e.(notReady := false), buf, chip, inverted, now);
      }
    }
  }

  /** The interrupt keeps the invariant. */
  lemma IrqConsistent(e: Engine, buf: seq<Pattern>, chip: ChipDescriptor, now: int)
    requires Consistent(e, buf)
    ensures Consistent(Irq(e, buf, chip, now).engine, buf)
  {
  }

  /** Scheduling a frame whose patterns all take time keeps the invariant. */
  lemma ScheduleConsistent(e: Engine, n: nat, buf: seq<Pattern>, chip: ChipDescriptor, inverted: bool, now: int)
    requires Consistent(e, buf) && n <= |buf| && Durations(buf, n)
    ensures Consistent(Schedule(e, n, buf, chip, inverted, now).engine, buf)
  {
    if !e.notReady {
      StartSendingFacts(e.(nextPatterns := n), buf, chip, inverted, now);
    }
  }

  /** Starting a frame of n > 0 patterns marks the channel busy, counts the update,
      resets the per-frame statistics, configures the PWM from the chip's timing and
      loads pattern 0; a frame of no patterns only disables the PWM. */
  lemma StartLoadsFirstPattern(e: Engine, buf: seq<Pattern>, chip: ChipDescriptor, inverted: bool, now: int)
    requires InBounds(e, |buf|) && Durations(buf, e.nextPatterns)
    ensures var r := StartSending(e, buf, chip, inverted, now).engine;
      var evs := StartSending(e, buf, chip, inverted, now).events;
      if e.nextPatterns > 0 then
        && r.notReady && r.stats.updates == Inc32(e.stats.updates)
        && r.sendRetries == 0 && r.stats.lastTimeoutNs == 0 && r.stats.maxIrqDelay == 0
        && r.stats.minIrqDelay == ToU32(e.maxTPassiveNs)
        && r.numPatterns == e.nextPatterns && r.outPtr == 1 && r.remaining == e.nextPatterns - 1
        && r.expectedSentAt == now + buf[0].nanosecs && r.updateStartedAt == now
        && evs == [Disable, Configure(inverted, chip.t0ActiveNs / PwmTickNs, chip.tPassiveMinNs / PwmTickNs), Disable, Load(0)]
      else
        r.notReady == e.notReady && r.stats == e.stats && r.numPatterns == 0 && evs == [Disable]
  {
  }

  /** An interrupt that comes before the expected time (by less than 2^31 ns) has a huge
      `u32` delay: it is treated as late, whatever the tolerance below 2^31 ns. */
  lemma EarlyIrqIsLate(e: Engine, now: int)
    requires 0 <= e.maxTPassiveNs < 0x8000_0000
    requires e.expectedSentAt - 0x8000_0000 <= now < e.expectedSentAt
    ensures TooLate(e, now)
  {
    assert IrqDelay(e, now) == now - e.expectedSentAt + TwoTo32;
  }

  /** A late interrupt loads nothing and counts a retry; within the budget, the timer
      that follows sends the whole frame again from pattern 0. */
  lemma LateIrqRestartsFrame(e: Engine, buf: seq<Pattern>, chip: ChipDescriptor, inverted: bool, now: int, later: int)
    requires Consistent(e, buf) && e.remaining > 0
    requires TooLate(e, now) && e.sendRetries + 1 < e.maxSendRetries
    ensures var a := Irq(e, buf, chip, now);
      var b := Timer(a.engine, buf, chip, inverted, later);
      && a.events == [ArmTimer(ResetWaitNs(chip))]
      && a.engine.sendRetries == e.sendRetries + 1 && a.engine.stats.retries == Inc32(e.stats.retries)
      && a.engine.stats.lastTimeoutNs == IrqDelay(e, now)
      && b.events == [Disable, Load(0)]
      && b.engine.outPtr == 1 && b.engine.remaining == e.numPatterns - 1
      && b.engine.expectedSentAt == later + buf[0].nanosecs
      && b.engine.notReady
  {
  }

  /** A late interrupt that uses up the retry budget drops the rest of the frame and
      counts an error; the channel stays busy until the timer, which then starts only a
      waiting frame: no pattern of the dropped frame is loaded again. */
  lemma ExhaustedFrameIsDropped(e: Engine, buf: seq<Pattern>, chip: ChipDescriptor, inverted: bool, now: int, later: int)
    requires Consistent(e, buf)
    requires TooLate(e, now) && e.sendRetries + 1 >= e.maxSendRetries
    ensures var a := Irq(e, buf, chip, now);
      var b := Timer(a.engine, buf, chip, inverted, later);
      && a.engine.remaining == 0 && a.engine.stats.errors == Inc32(e.stats.errors)
      && a.events == [ArmTimer(ResetWaitNs(chip))]
      && a.engine.notReady == e.notReady
      && (e.notReady && e.nextPatterns == 0 ==> !b.engine.notReady && b.events == [Disable])
      && (e.notReady ==> b.engine.numPatterns == e.nextPatterns)
  {
  }

  /** An interrupt in time that finds no pattern left completes the frame: the frame's
      duration is recorded and lies between the minimum and maximum durations, and the
      timer is armed for 1.5 times the reset time. */
  lemma CompletionStats(e: Engine, buf: seq<Pattern>, chip: ChipDescriptor, now: int)
    requires InBounds(e, |buf|) && e.remaining == 0 && !TooLate(e, now)
    ensures var r := Irq(e, buf, chip, now);
      && r.engine.numPatterns == 0
      && r.engine.stats.lastUpdateUs == UpdateUs(now, e.updateStartedAt)
      && r.engine.stats.minUpdateUs <= r.engine.stats.lastUpdateUs <= r.engine.stats.maxUpdateUs
      && r.engine.stats.irqCount == Inc32(e.stats.irqCount)
      && r.events == [Disable, ArmTimer(ResetWaitNs(chip))]
  {
  }

  /** The minimum and maximum delay are tracked with `else if`: the first accepted delay
      of a frame below the tolerance becomes the minimum and leaves the maximum at 0. */
  lemma NewMinimumLeavesMaximum(e: Engine, buf: seq<Pattern>, chip: ChipDescriptor, now: int)
    requires InBounds(e, |buf|) && !TooLate(e, now)
    requires IrqDelay(e, now) < e.stats.minIrqDelay
    ensures var r := Irq(e, buf, chip, now);
      r.engine.stats.minIrqDelay == IrqDelay(e, now) && r.engine.stats.maxIrqDelay == e.stats.maxIrqDelay
  {
  }

  /** After a start, an interrupt with any accepted delay 0 < d leaves the maximum below
      the minimum. */
  lemma MaxBelowMinAfterFirstIrq(e: Engine, buf: seq<Pattern>, chip: ChipDescriptor, inverted: bool, now: int, irqAt: int)
    requires InBounds(e, |buf|) && Durations(buf, e.nextPatterns) && e.nextPatterns > 0
    requires 0 < e.maxTPassiveNs < TwoTo32
    requires var s := StartSending(e, buf, chip, inverted, now).engine;
      0 < irqAt - s.expectedSentAt < e.maxTPassiveNs
    ensures var s := StartSending(e, buf, chip, inverted, now).engine;
      var r := Irq(s, buf, chip, irqAt).engine;
      r.stats.maxIrqDelay == 0 < r.stats.minIrqDelay
  {
    var s := StartSending(e, buf, chip, inverted, now).engine;
    assert IrqDelay(s, irqAt) == irqAt - s.expectedSentAt;
  }

  /** Latest frame wins: a frame scheduled while the channel is busy only waits; a
      second one replaces it; when the timer finds the channel idle, it starts the last
      frame scheduled. */
  lemma LatestFrameWins(e: Engine, n1: nat, n2: nat, buf: seq<Pattern>, chip: ChipDescriptor, inverted: bool, t1: int, t2: int, t3: int)
    requires InBounds(e, |buf|) && e.notReady
    requires n1 <= |buf| && 0 < n2 <= |buf| && Durations(buf, n2)
    ensures var a := Schedule(Stop(e).0, n1, buf, chip, inverted, t1);
      var stopped := Stop(a.engine);
      var b := Schedule(stopped.0, n2, buf, chip, inverted, t2);
      var c := Timer(b.engine, buf, chip, inverted, t3);
      && a.events == [] && stopped.1
      && b.events == [] && b.engine.nextPatterns == n2
      && c.engine.numPatterns == n2 && c.engine.nextPatterns == 0 && c.engine.notReady
      && Loads(c.events) == [0]
  {
    var a := Schedule(Stop(e).0, n1, buf, chip, inverted, t1);
    var b := Schedule(Stop(a.engine).0, n2, buf, chip, inverted, t2);
    StartSendingFacts(b.engine.(notReady := false), buf, chip, inverted, t3);
  }

  // ---------------------------------------------------------------------------
  // Delivery of a whole frame

  /** The interrupts of a frame, each arriving `jitters[i]` after the time the state
      expects it. */
  function DeliverOnTime(e: Engine, buf: seq<Pattern>, chip: ChipDescriptor, jitters: seq<nat>): (r: Step)
    requires InBounds(e, |buf|)
    ensures InBounds(r.engine, |buf|)
    decreases |jitters|
  {
    if jitters == [] then Step(e, [])
    else
      var s := Irq(e, buf, chip, e.expectedSentAt + jitters[0]);
      var rest := DeliverOnTime(s.engine, buf, chip, jitters[1..]);
      Step(rest.engine, s.events + rest.events)
  }

  /** Pattern `lo` loaded, then the patterns after it. */
  lemma LoadsAfter(first: seq<HwEvent>, rest: seq<HwEvent>, lo: nat, n: nat, lo': nat, n': nat)
    requires lo' == lo + 1 && n' + 1 == n
    requires Loads(first) == [lo] && Loads(rest) == Range(lo', n') && |rest| > 0
    ensures Loads(first + rest) == Range(lo, n)
    ensures (first + rest)[|first + rest| - 1] == rest[|rest| - 1]
  {
    LoadsConcat(first, rest);
  }

  /** The first interrupt of a delivery, then the rest. */
  lemma DeliverUnfold(e: Engine, buf: seq<Pattern>, chip: ChipDescriptor, jitters: seq<nat>)
    requires InBounds(e, |buf|) && jitters != []
    ensures var s := Irq(e, buf, chip, e.expectedSentAt + jitters[0]);
      var rest := DeliverOnTime(s.engine, buf, chip, jitters[1..]);
      && DeliverOnTime(e, buf, chip, jitters).engine == rest.engine
      && DeliverOnTime(e, buf, chip, jitters).events == s.events + rest.events
  {
  }

  /** One interrupt within the tolerance: it loads the next pattern of the frame, or
      completes the frame when none is left. */
  lemma OnTimeIrq(e: Engine, buf: seq<Pattern>, chip: ChipDescriptor, jitter: nat)
    requires Consistent(e, buf) && e.notReady
    requires 0 <= e.maxTPassiveNs < TwoTo32 && jitter <= e.maxTPassiveNs
    ensures var s := Irq(e, buf, chip, e.expectedSentAt + jitter);
      && Consistent(s.engine, buf) && s.engine.notReady
      && s.engine.maxTPassiveNs == e.maxTPassiveNs && s.engine.sendRetries == e.sendRetries
      && s.engine.stats.retries == e.stats.retries && s.engine.stats.errors == e.stats.errors
      && (e.remaining > 0 ==>
            Loads(s.events) == [e.outPtr] && s.engine.outPtr == e.outPtr + 1 && s.engine.remaining == e.remaining - 1)
      && (e.remaining == 0 ==>
            && Loads(s.events) == [] && s.engine.remaining == 0 && s.engine.numPatterns == 0
            && |s.events| > 0 && s.events[|s.events| - 1] == ArmTimer(ResetWaitNs(chip)))
  {
    assert IrqDelay(e, e.expectedSentAt + jitter) == jitter;
    var s := Irq(e, buf, chip, e.expectedSentAt + jitter);
    IrqConsistent(e, buf, chip, e.expectedSentAt + jitter);
    SendNextLoads(e.(stats := TrackDelay(e.stats, jitter)), buf);
    if e.remaining == 0 {
      LoadsConcat([Disable], [ArmTimer(ResetWaitNs(chip))]);
      LoadsSingle(Disable);
      LoadsSingle(ArmTimer(ResetWaitNs(chip)));
      assert s.events == [Disable] + [ArmTimer(ResetWaitNs(chip))];
    }
  }

  /** The facts a delivery of a frame ends with: the patterns from `outPtr` on are
      loaded in order, nothing is left, no retry or error is counted, and the timer is
      armed for the reset time. */
  predicate Delivered(e: Engine, r: Step, chip: ChipDescriptor)
  {
    && Loads(r.events) == Range(e.outPtr, e.remaining)
    && r.engine.remaining == 0 && r.engine.numPatterns == 0 && r.engine.notReady
    && r.engine.sendRetries == e.sendRetries
    && r.engine.stats.retries == e.stats.retries && r.engine.stats.errors == e.stats.errors
    && |r.events| > 0 && r.events[|r.events| - 1] == ArmTimer(ResetWaitNs(chip))
  }

  /** A pattern loaded in time, then the rest of the frame delivered. */
  lemma DeliveredAfter(e: Engine, s: Step, rest: Step, r: Step, chip: ChipDescriptor)
    requires e.remaining > 0 && Loads(s.events) == [e.outPtr]
    requires s.engine.outPtr == e.outPtr + 1 && s.engine.remaining == e.remaining - 1
    requires s.engine.sendRetries == e.sendRetries
    requires s.engine.stats.retries == e.stats.retries && s.engine.stats.errors == e.stats.errors
    requires Delivered(s.engine, rest, chip)
    requires r.engine == rest.engine && r.events == s.events + rest.events
    ensures Delivered(e, r, chip)
  {
    LoadsAfter(s.events, rest.events, e.outPtr, e.remaining, s.engine.outPtr, s.engine.remaining);
  }

  /** The first interrupt of a frame with patterns left, within the tolerance: the
      state `e1` after it and the effects `evs` it has. */
  lemma FirstIrqInTime(e: Engine, buf: seq<Pattern>, chip: ChipDescriptor, jitters: seq<nat>)
    returns (e1: Engine, evs: seq<HwEvent>)
    requires Consistent(e, buf) && e.notReady && e.remaining > 0
    requires 0 <= e.maxTPassiveNs < TwoTo32
    requires |jitters| > 0 && jitters[0] <= e.maxTPassiveNs
    ensures Consistent(e1, buf) && e1.notReady && e1.maxTPassiveNs == e.maxTPassiveNs
    ensures e1.outPtr == e.outPtr + 1 && e1.remaining == e.remaining - 1 && Loads(evs) == [e.outPtr]
    ensures e1.sendRetries == e.sendRetries
    ensures e1.stats.retries == e.stats.retries && e1.stats.errors == e.stats.errors
    ensures DeliverOnTime(e, buf, chip, jitters).engine == DeliverOnTime(e1, buf, chip, jitters[1..]).engine
    ensures DeliverOnTime(e, buf, chip, jitters).events == evs + DeliverOnTime(e1, buf, chip, jitters[1..]).events
  {
    var s := Irq(e, buf, chip, e.expectedSentAt + jitters[0]);
    OnTimeIrq(e, buf, chip, jitters[0]);
    DeliverUnfold(e, buf, chip, jitters);
    e1, evs := s.engine, s.events;
  }

  /** The last interrupt of a frame, within the tolerance, completes it. */
  lemma LastIrqDelivers(e: Engine, buf: seq<Pattern>, chip: ChipDescriptor, jitters: seq<nat>)
    requires Consistent(e, buf) && e.notReady && e.remaining == 0
    requires 0 <= e.maxTPassiveNs < TwoTo32
    requires |jitters| == 1 && jitters[0] <= e.maxTPassiveNs
    ensures Delivered(e, DeliverOnTime(e, buf, chip, jitters), chip)
  {
    var s := Irq(e, buf, chip, e.expectedSentAt + jitters[0]);
    OnTimeIrq(e, buf, chip, jitters[0]);
    DeliverUnfold(e, buf, chip, jitters);
    assert jitters[1..] == [];
    assert DeliverOnTime(e, buf, chip, jitters).events == s.events + [] == s.events;
  }

  /** A frame whose interrupts all come within the tolerance is loaded pattern after
      pattern in buffer order, and then completed. */
  lemma {:induction false} OnTimeFrameDelivered(e: Engine, buf: seq<Pattern>, chip: ChipDescriptor, jitters: seq<nat>)
    requires Consistent(e, buf) && e.notReady
    requires 0 <= e.maxTPassiveNs < TwoTo32
    requires |jitters| == e.remaining + 1
    requires forall i :: 0 <= i < |jitters| ==> jitters[i] <= e.maxTPassiveNs
    ensures Delivered(e, DeliverOnTime(e, buf, chip, jitters), chip)
    decreases |jitters|
  {
    if e.remaining == 0 {
      LastIrqDelivers(e, buf, chip, jitters);
    } else {
      var e1, evs := FirstIrqInTime(e, buf, chip, jitters);
      var tail := jitters[1..];
      assert forall i :: 0 <= i < |tail| ==> tail[i] == jitters[i + 1];
      OnTimeFrameDelivered(e1, buf, chip, tail);
      DeliveredAfter(e, Step(e1, evs), DeliverOnTime(e1, buf, chip, tail), DeliverOnTime(e, buf, chip, jitters), chip);
    }
  }

  /** A frame of n patterns started on a ready channel, with every interrupt in time, is
      sent as patterns 0, 1, ..., n-1 and completed. */
  lemma FrameSentInOrder(e: Engine, buf: seq<Pattern>, chip: ChipDescriptor, inverted: bool, now: int, jitters: seq<nat>)
    requires Consistent(e, buf) && e.remaining == 0 && e.nextPatterns > 0
    requires 0 <= e.maxTPassiveNs < TwoTo32
    requires |jitters| == e.nextPatterns
    requires forall i :: 0 <= i < |jitters| ==> jitters[i] <= e.maxTPassiveNs
    ensures var s := StartSending(e, buf, chip, inverted, now);
      var r := DeliverOnTime(s.engine, buf, chip, jitters);
      && Loads(s.events + r.events) == Range(0, e.nextPatterns)
      && r.engine.numPatterns == 0 && r.engine.remaining == 0 && r.engine.sendRetries == 0
  {
    var s := StartSending(e, buf, chip, inverted, now);
    StartLoadsFirstPattern(e, buf, chip, inverted, now);
    StartSendingFacts(e, buf, chip, inverted, now);
    OnTimeFrameDelivered(s.engine, buf, chip, jitters);
    var r := DeliverOnTime(s.engine, buf, chip, jitters);
    LoadsConcat(s.events, r.events);
  }

  /** A frame scheduled on a ready channel starts at once: with every interrupt in time
      its patterns are loaded as 0..n-1 and it completes with no retry. */
  lemma ReadyChannelSendsFrame(e: Engine, n: nat, buf: seq<Pattern>, chip: ChipDescriptor, inverted: bool,
                               now: int, jitters: seq<nat>)
    requires Consistent(e, buf) && !e.notReady && 0 < n <= |buf| && Durations(buf, n)
    requires 0 <= e.maxTPassiveNs < TwoTo32
    requires |jitters| == n
    requires forall i :: 0 <= i < |jitters| ==> jitters[i] <= e.maxTPassiveNs
    ensures var s := Schedule(e, n, buf, chip, inverted, now);
      var r := DeliverOnTime(s.engine, buf, chip, jitters);
      && Loads(s.events + r.events) == Range(0, n)
      && r.engine.numPatterns == 0 && r.engine.remaining == 0 && r.engine.sendRetries == 0
  {
    FrameSentInOrder(e.(nextPatterns := n), buf, chip, inverted, now, jitters);
  }
}
