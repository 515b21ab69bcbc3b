// What `update_leds` makes of a frame written to a channel: the settings the
// frame is encoded with (from the channel's configuration, or from the
// frame's own header in variable-type mode), the patterns it becomes, the
// assembly of one LED's word through the layout's fetch order, and the
// invariant of the loop that feeds the LEDs to the bit generator.
module Update {
  import opened Common
  import opened LedTypes
  import opened Bits
  import opened BitPattern
  import opened Config
  import opened Frame
  import opened Generator
  import opened Transmission

  /** What a frame is encoded and sent with: chip and layout, the tolerated interrupt
      delay, the retry budget, and the LED bytes. */
  datatype Settings = Settings(chip: LedChip, layout: LedLayout, maxTPassiveNs: int, maxSendRetries: int,
                               payload: seq<bv8>)

  /** A maximum passive time of 0 stands for the chip's own maximum. */
  function PassiveLimit(ns: int, chip: LedChip): int
  {
    if ns == 0 then ChipDesc(chip).tPassiveMaxNs else ns
  }

  /** The settings of `update_leds` for a frame `buff` on a channel with the given
      selection and current chip, layout, maximum passive time and retry budget. A
      fixed-type channel keeps its own and takes the whole frame as payload; a
      variable-type channel takes them from the header, keeps its retry budget when the
      header's retry byte is 0, and rejects a frame whose header does not decode. */
  function FrameSettings(sel: LedSelection, chip: LedChip, layout: LedLayout, maxTPassiveNs: int,
                         maxSendRetries: int, buff: seq<bv8>): (r: Result<Settings, FrameError>)
    ensures r.Err? <==> sel.Variable? && DecodeHeader(buff).Err?
    ensures r.Err? ==> r.error == DecodeHeader(buff).error
    ensures r.Ok? ==> r.value.maxTPassiveNs != 0
    ensures r.Ok? && sel.Fixed? ==>
      r.value.chip == chip && r.value.layout == layout && r.value.maxSendRetries == maxSendRetries
      && r.value.payload == buff
      && r.value.maxTPassiveNs == PassiveLimit(maxTPassiveNs, chip)
    ensures r.Ok? && sel.Variable? ==>
      && ChipId(r.value.chip) == buff[2] as int && LayoutId(r.value.layout) == buff[1] as int
      && r.value.maxTPassiveNs == PassiveLimit((buff[3] as int * 0x100 + buff[4] as int) * 1000, r.value.chip)
      && r.value.maxSendRetries == (if SignedChar(buff[5]) != 0 then SignedChar(buff[5]) else maxSendRetries)
      && r.value.payload == buff[HeaderLength(buff) + 1..]
  {
    if sel.Fixed? then
      Ok(Settings(chip, layout, PassiveLimit(maxTPassiveNs, chip), maxSendRetries, buff))
    else
      var h := DecodeHeader(buff);
      if h.Err? then Err(h.error)
      else
        var retries := if h.value.retries != 0 then h.value.retries else maxSendRetries;
        Ok(Settings(h.value.chip, h.value.layout, PassiveLimit(h.value.maxTPassiveNs, h.value.chip), retries,
                    buff[h.value.payloadStart..]))
  }

  /** Number of LEDs a frame updates on a channel of `numLeds` LEDs. */
  function FrameLeds(s: Settings, numLeds: nat): (leds: nat)
    ensures leds <= numLeds && Offset(leds, LayoutDesc(s.layout).channels) <= |s.payload|
  {
    LedCount(|s.payload|, LayoutDesc(s.layout).channels, numLeds)
  }

  /** The patterns `update_leds` leaves for the sender. */
  function FramePatterns(s: Settings, numLeds: nat, inverted: bool): seq<Pattern>
  {
    Encode(FrameBits(s.payload, s.layout, FrameLeds(s, numLeds)), ChipDesc(s.chip), inverted)
  }

  /** Every pattern of a frame takes time, so the sender never takes one of them for the
      end of the frame. */
  lemma FrameTakesTime(s: Settings, numLeds: nat, inverted: bool)
    ensures var frame := FramePatterns(s, numLeds, inverted);
      forall k :: 0 <= k < |frame| ==> frame[k].nanosecs > 0
  {
    var chip := ChipDesc(s.chip);
    var p := Pad(Slots(FrameBits(s.payload, s.layout, FrameLeds(s, numLeds)), chip.t0PassiveDouble));
    forall k | 0 <= k < |Patterns(p, inverted, chip)|
      ensures Patterns(p, inverted, chip)[k].nanosecs > 0
    {
      EncodedDurationsPositive(p, inverted, chip, k);
    }
  }

  /** A buffer that starts with a frame's patterns has time in each of them. */
  lemma StoredFrameTakesTime(buf: seq<Pattern>, s: Settings, numLeds: nat, inverted: bool)
    requires var frame := FramePatterns(s, numLeds, inverted); |frame| <= |buf| && buf[..|frame|] == frame
    ensures Durations(buf, |FramePatterns(s, numLeds, inverted)|)
  {
    var frame := FramePatterns(s, numLeds, inverted);
    FrameTakesTime(s, numLeds, inverted);
    forall k | 0 <= k < |frame|
      ensures buf[k].nanosecs > 0
    {
      assert buf[k] == buf[..|frame|][k];
    }
  }

  /** A client that writes `HeaderBytes` before its LED bytes to a variable-type channel
      gets the chip and layout it names, its maximum passive time (the chip's own for 0),
      its retry budget unless it sends 0, and its LED bytes as payload. */
  lemma ClientFrameSettings(chip: LedChip, layout: LedLayout, maxPassiveUs: nat, retries: int, payload: seq<bv8>,
                            chip0: LedChip, layout0: LedLayout, maxTPassiveNs: int, maxSendRetries: int)
    requires maxPassiveUs < 0x1_0000 && -128 <= retries < 128
    ensures var buff := HeaderBytes(layout, chip, maxPassiveUs, retries) + payload;
      FrameSettings(Variable, chip0, layout0, maxTPassiveNs, maxSendRetries, buff)
      == Ok(Settings(chip, layout,
                     if maxPassiveUs == 0 then ChipDesc(chip).tPassiveMaxNs else maxPassiveUs * 1000,
                     if retries != 0 then retries else maxSendRetries, payload))
  {
    HeaderRoundTrip(layout, chip, maxPassiveUs, retries, payload);
  }

  /** The LED chain reads back, from the patterns of a frame, the bytes of each updated
      LED in the chip's channel order, each most significant bit first. */
  lemma FrameReadBack(s: Settings, numLeds: nat, inverted: bool)
    ensures Decode(Unpack(FramePatterns(s, numLeds, inverted), inverted))
         == BytesBits(FrameBytes(s.payload, s.layout, FrameLeds(s, numLeds)))
  {
    EncodeRoundTrip(FrameBits(s.payload, s.layout, FrameLeds(s, numLeds)), ChipDesc(s.chip), inverted);
  }

  /** The buffer a channel allocates holds the patterns of every frame it accepts. */
  lemma FrameFits(sel: LedSelection, s: Settings, numLeds: nat, inverted: bool)
    requires sel.Fixed? ==> s.layout == sel.layout
    ensures |FramePatterns(s, numLeds, inverted)| <= OutBufPatterns(numLeds, SizingChannels(sel))
  {
    var leds, ch := FrameLeds(s, numLeds), LayoutDesc(s.layout).channels;
    OffsetIsProduct(leds, ch);
    MulLe(leds, numLeds, ch, SizingChannels(sel));
    EncodeFits(FrameBits(s.payload, s.layout, leds), numLeds, SizingChannels(sel), ChipDesc(s.chip), inverted);
  }

  /** A payload of n bytes 0xFF: LEDs at full brightness. */
  function White(n: nat): (bs: seq<bv8>)
    ensures |bs| == n && forall i :: 0 <= i < n ==> bs[i] == 0xFF
  {
    seq(n, _ => 0xFF)
  }

  /** The first k three-channel LEDs of a full-brightness payload are 24 one bits each. */
  lemma {:induction false} WhiteFrameBits(layout: LedLayout, n: nat, k: nat)
    requires LayoutDesc(layout).channels == 3 && Offset(k, 3) <= n
    ensures FrameBits(White(n), layout, k) == Ones(24 * k)
  {
    if k > 0 {
      OffsetMono(k - 1, k, 3);
      WhiteFrameBits(layout, n, k - 1);
      FrameBitsSnoc(White(n), layout, k - 1);
      assert LedBytes(White(n), layout, k - 1) == [0xFF, 0xFF, 0xFF];
      FullWhiteBits();
      assert Ones(24 * (k - 1)) + Ones(24) == Ones(24 * k);
    }
  }

  /** The driver's buffer for 112 three-channel LEDs holds 126 patterns, and a frame of
      those LEDs at full brightness takes 128. The generator writes slots into pattern
      127, two past the buffer's last, and the safeguard as written never holds the
      cursor back on the way: it compares the cursor with 1512, the buffer's size in
      bytes, so every step up to pattern 127 is the unguarded `Bit`. */
  lemma GuardLetsOverrunThrough(layout: LedLayout, chip: LedChip, inverted: bool, maxTPassiveNs: int,
                                maxSendRetries: int)
    requires LayoutDesc(layout).channels == 3
    ensures var size := OutBufSizeAsWritten(112, 3);
      var n := size / PatternBytes;
      var r := FrameSettings(Fixed(chip, layout), chip, layout, maxTPassiveNs, maxSendRetries, White(336));
      && n == 126 && r.Ok? && FrameLeds(r.value, 112) == 112
      && |FramePatterns(r.value, 112, inverted)| == n + 2
      && PatternSlots * (n + 1) < |Slots(FrameBits(White(336), layout, 112), ChipDesc(chip).t0PassiveDouble)|
      && forall g: Gen, b: bool :: Tidy(g) && Written(g) < PatternSlots * |g.buf| && g.ptr <= n + 1 ==>
           BitAsWritten(g, b, inverted, ChipDesc(chip), size) == Bit(g, b, inverted, ChipDesc(chip))
  {
    var s := FrameSettings(Fixed(chip, layout), chip, layout, maxTPassiveNs, maxSendRetries, White(336)).value;
    var dbl := ChipDesc(chip).t0PassiveDouble;
    OffsetIsProduct(112, 3);
    assert FrameLeds(s, 112) == 112;
    WhiteFrameBits(layout, 336, 112);
    assert 24 * 112 == 21 * 128;
    OnesBlocks(128, dbl);
    EncodeLength(Ones(24 * 112), ChipDesc(chip), inverted);
  }

  /** The generator has room for four slots per bit of at most `numLeds` LEDs of at most
      `sizing` bytes. */
  lemma Capacity(leds: nat, ch: nat, numLeds: nat, sizing: nat)
    requires leds <= numLeds && ch <= sizing
    ensures 32 * Offset(leds, ch) <= PatternSlots * OutBufPatterns(numLeds, sizing)
  {
    OffsetIsProduct(leds, ch);
    MulLe(leds, numLeds, ch, sizing);
  }

  lemma MulLe(a: nat, b: nat, c: nat, d: nat)
    requires a <= b && c <= d
    ensures a * c <= b * d
  {
  }

  // ---------------------------------------------------------------------------
  // The loops of `update_leds`

  /** The inner loop of `update_leds`: the LED's bytes fetched in the layout's order
      from its record at `base` and shifted into one word, the first byte highest. */
  method AssembleLedWord(payload: seq<bv8>, d: LayoutDescriptor, base: nat, ghost layout: LedLayout, ghost k: nat)
    returns (ledword: bv32)
    requires d == LayoutDesc(layout) && base == Offset(k, d.channels) && Offset(k + 1, d.channels) <= |payload|
    ensures ledword == LedWord(LedBytes(payload, layout, k))
  {
    ghost var bs := LedBytes(payload, layout, k);
    var i := 0;
    ledword := 0;
    while true
      invariant i < d.channels
      invariant ledword == if i == 0 then 0 else LedWord(bs[..i]) << 8
      decreases d.channels - i
    {
      LedWordSnoc(bs, i);
      FetchInRecord(layout, i);
      assert bs[i] == payload[base + d.fetchIdx[i]];
      ledword := ledword | payload[base + d.fetchIdx[i]] as bv32;
      i := i + 1;
      if i >= d.channels {
        break;
      }
      ledword := ledword << 8;
    }
    assert bs[..i] == bs;
  }

  lemma FetchInRecord(layout: LedLayout, i: nat)
    requires i < LayoutDesc(layout).channels
    ensures LayoutDesc(layout).fetchIdx[i] < LayoutDesc(layout).channels
  {
  }

  /** The outer loop of `update_leds`, with `done` of its `leds` LEDs encoded: the record
      of the next one starts at `inPtr`, and the generator has been fed the bits of the
      LEDs before it. */
  ghost predicate FrameLoop(g0: Gen, payload: seq<bv8>, layout: LedLayout, leds: nat, done: nat, inPtr: nat,
                            g: Gen, inverted: bool, chip: ChipDescriptor)
  {
    var ch := LayoutDesc(layout).channels;
    && g0 == Gen(g0.buf, 0, 0, WordSlots, 0) && Tidy(g0)
    && done <= leds && Offset(leds, ch) <= |payload| && 32 * Offset(leds, ch) <= PatternSlots * |g0.buf|
    && Offset(done, ch) <= Offset(leds, ch)
    && inPtr == Offset(done, ch)
    && g == Feed(g0, FrameBits(payload, layout, done), inverted, chip)
  }

  lemma FrameLoopStart(g0: Gen, payload: seq<bv8>, layout: LedLayout, leds: nat, inverted: bool, chip: ChipDescriptor)
    requires g0 == Gen(g0.buf, 0, 0, WordSlots, 0) && Tidy(g0)
    requires Offset(leds, LayoutDesc(layout).channels) <= |payload|
    requires 32 * Offset(leds, LayoutDesc(layout).channels) <= PatternSlots * |g0.buf|
    ensures FrameLoop(g0, payload, layout, leds, 0, 0, g0, inverted, chip) == true
  {
    assert FrameBits(payload, layout, 0) == [];
    OffsetMono(0, leds, LayoutDesc(layout).channels);
  }

  /** One pass of the outer loop: the LED's word, `channels * 8` bits wide, is fed next. */
  lemma FrameLoopBody(g0: Gen, payload: seq<bv8>, layout: LedLayout, leds: nat, done: nat, inPtr: nat,
                      g: Gen, inverted: bool, chip: ChipDescriptor)
    requires FrameLoop(g0, payload, layout, leds, done, inPtr, g, inverted, chip) && done < leds
    ensures var ch := LayoutDesc(layout).channels;
      && inPtr == Offset(done, ch) && Offset(done + 1, ch) <= |payload|
      && Tidy(g) && |g.buf| == |g0.buf| && Written(g) + 4 * (ch * 8) <= PatternSlots * |g.buf|
      && var bs := LedBytes(payload, layout, done);
        FrameLoop(g0, payload, layout, leds, done + 1, inPtr + ch,
                  Feed(g, MsbBits(LedWord(bs), ByteOf(ch * 8)), inverted, chip), inverted, chip)
  {
    var ch := LayoutDesc(layout).channels;
    OffsetMono(done + 1, leds, ch);
    FeedNextLed(g0, payload, layout, done, inverted, chip);
    var bs := LedBytes(payload, layout, done);
    var next := Feed(g, MsbBits(LedWord(bs), ByteOf(ch * 8)), inverted, chip);
    assert next == Feed(g0, FrameBits(payload, layout, done + 1), inverted, chip);
    assert inPtr + ch == Offset(done + 1, ch);
  }

  /** The loop state after a pass, named by the counters' new values. */
  lemma FrameLoopStep(g0: Gen, payload: seq<bv8>, layout: LedLayout, leds: nat, done: nat, inPtr: nat, ch: nat,
                      g: Gen, inverted: bool, chip: ChipDescriptor)
    requires FrameLoop(g0, payload, layout, leds, done + 1, inPtr + ch, g, inverted, chip) == true
    ensures forall d: nat, p: nat {:trigger FrameLoop(g0, payload, layout, leds, d, p, g, inverted, chip)}
      :: d == done + 1 && p == inPtr + ch ==> FrameLoop(g0, payload, layout, leds, d, p, g, inverted, chip)
  {
  }

  /** Feeding LED k's word after the bits of the LEDs before it feeds the bits of the
      first k + 1 LEDs. */
  lemma FeedNextLed(g0: Gen, payload: seq<bv8>, layout: LedLayout, k: nat, inverted: bool, chip: ChipDescriptor)
    requires Tidy(g0) && Written(g0) == 0
    requires Offset(k + 1, LayoutDesc(layout).channels) <= |payload|
    requires 32 * Offset(k + 1, LayoutDesc(layout).channels) <= PatternSlots * |g0.buf|
    ensures var ch := LayoutDesc(layout).channels;
      var g := Feed(g0, FrameBits(payload, layout, k), inverted, chip);
      && Written(g) + 4 * (ch * 8) <= PatternSlots * |g.buf|
      && Feed(g, MsbBits(LedWord(LedBytes(payload, layout, k)), ByteOf(ch * 8)), inverted, chip)
         == Feed(g0, FrameBits(payload, layout, k + 1), inverted, chip)
  {
    var bs := LedBytes(payload, layout, k);
    FrameBitsSnoc(payload, layout, k);
    LedWordBits(bs);
    WidthOfLedWord(bs);
    FeedConcat(g0, FrameBits(payload, layout, k), BytesBits(bs), inverted, chip);
  }

  /** The bit count `ncomp * 8` that `update_leds` passes is the width of the LED word. */
  lemma WidthOfLedWord(bs: seq<bv8>)
    requires |bs| <= 4
    ensures WordWidth(bs) == ByteOf(|bs| * 8)
  {
  }

  lemma FrameLoopEnd(g0: Gen, payload: seq<bv8>, layout: LedLayout, leds: nat, done: nat, inPtr: nat,
                     g: Gen, inverted: bool, chip: ChipDescriptor)
    requires FrameLoop(g0, payload, layout, leds, done, inPtr, g, inverted, chip) == true && done == leds
    ensures AllWellFormed(g0.buf) && g0 == Gen(g0.buf, 0, 0, WordSlots, 0)
    ensures 4 * |FrameBits(payload, layout, leds)| <= PatternSlots * |g0.buf|
    ensures g == Feed(g0, FrameBits(payload, layout, leds), inverted, chip)
  {
  }
}
