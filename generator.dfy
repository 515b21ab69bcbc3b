// The bit generator of p44-ledchain (`generateBit`, the loop body of
// `generateBits`, `finishBitGenerator`) as functions on its part of the
// device record, and the proof that it stores the encoding of module
// BitPattern: the patterns completed so far in the output buffer, and the one
// being filled, whose data words are written least significant bit first and
// cleared to 0 when their first bit is written.
module Generator {
  import opened Common
  import opened LedTypes
  import opened BitPattern
  import opened Bits

  /** A data word with no bit set, as `*owPtr = 0` leaves it. */
  function ClearWord(): (w: seq<bool>)
    ensures |w| == WordSlots
  {
    seq(WordSlots, _ => false)
  }

  /** A data word after the slots t have been written into it from bit 0 on: their
      output levels, then the cleared bits not yet written. */
  function PartialWord(t: seq<bool>, inverted: bool): (w: seq<bool>)
    requires |t| <= WordSlots
    ensures |w| == WordSlots
  {
    OutBits(t, inverted) + ClearWord()[|t|..]
  }

  /** Writing one more slot sets its bit and leaves the others. */
  lemma PartialWordSnoc(t: seq<bool>, b: bool, inverted: bool)
    requires |t| < WordSlots
    ensures PartialWord(t + [b], inverted) == PartialWord(t, inverted)[|t| := b != inverted]
  {
  }

  /** The first slot of a word is written into a cleared word. */
  lemma PartialWordFirst(b: bool, inverted: bool)
    ensures PartialWord([b], inverted) == ClearWord()[0 := b != inverted]
  {
  }

  /** A word whose 32 slots are all written holds exactly their levels. */
  lemma PartialWordFull(t: seq<bool>, inverted: bool)
    requires |t| == WordSlots
    ensures PartialWord(t, inverted) == OutBits(t, inverted)
  {
  }

  /** Time of a run of slots grows by the time of the slot appended. */
  lemma DurationSnoc(t: seq<bool>, b: bool, chip: ChipDescriptor)
    ensures Duration(t + [b], chip) == Duration(t, chip) + (if b then chip.t0ActiveNs else chip.tPassiveMinNs)
  {
    assert (t + [b])[..|t|] == t;
  }

  /** The C `outMask` as a bit position: 1 << outBit, with 32 standing for the value
      0 that `om << 1` reaches after bit 31 and that the generator starts with. */
  function MaskBit(bitCount: nat): (b: nat)
    ensures 1 <= b <= WordSlots
  {
    if bitCount % WordSlots == 0 then WordSlots else bitCount % WordSlots
  }

  /** Shifting the mask left moves its bit up by one, and from bit 31 to the value 0. */
  lemma MaskBitNext(bitCount: nat)
    ensures MaskBit(bitCount + 1) == (if MaskBit(bitCount) == WordSlots then 0 else MaskBit(bitCount)) + 1
  {
  }

  // ---------------------------------------------------------------------------
  // The generator's state and steps

  /** The generator's part of the device record: the output buffer, `outPtr` as an
      index, `bitCount`, `outMask` as the position of its bit (see MaskBit) and
      `nanosecs`. */
  datatype Gen = Gen(buf: seq<Pattern>, ptr: nat, bitCount: nat, outBit: nat, ns: nat)

  /** Every pattern has two 32-bit words. */
  predicate AllWellFormed(buf: seq<Pattern>)
  {
    forall i :: 0 <= i < |buf| ==> WellFormed(buf[i])
  }

  /** What the generator keeps between two slots whatever their values: a slot count
      inside the pattern, the mask that goes with it and the cursor inside the buffer. */
  predicate Tidy(g: Gen)
  {
    && g.bitCount < PatternSlots && g.outBit == MaskBit(g.bitCount) && g.ptr <= |g.buf|
    && AllWellFormed(g.buf)
  }

  /** Slots written: 64 per completed pattern and those of the current one. */
  function Written(g: Gen): nat
  {
    PatternSlots * g.ptr + g.bitCount
  }

  /** `generateBit`: slot b goes to bit `om` of the word that the slot count selects
      (the word is cleared first when the mask is 0), its time is added, and the 64th
      slot completes the pattern with its time and moves to the next one. */
  function Bit(g: Gen, b: bool, inverted: bool, chip: ChipDescriptor): (r: Gen)
    requires Tidy(g) && Written(g) < PatternSlots * |g.buf|
    ensures Tidy(r) && |r.buf| == |g.buf| && Written(r) == Written(g) + 1
  {
    var second := g.bitCount >= WordSlots;  // `bitCount & 0x20`
    var pt := g.buf[g.ptr];
    var om := if g.outBit == WordSlots then 0 else g.outBit;
    var w := if g.outBit == WordSlots then ClearWord() else if second then pt.data1 else pt.data0;
    var pt' := if second then pt.(data1 := w[om := b != inverted]) else pt.(data0 := w[om := b != inverted]);
    var ns := g.ns + (if b then chip.t0ActiveNs else chip.tPassiveMinNs);
    MaskBitNext(g.bitCount);
    if om + 1 == WordSlots && g.bitCount + 1 >= PatternSlots then
      Gen(g.buf[g.ptr := pt'.(nanosecs := ns)], g.ptr + 1, 0, om + 1, 0)
    else
      Gen(g.buf[g.ptr := pt'], g.ptr, g.bitCount + 1, om + 1, ns)
  }

  /** `generateBit` with the driver's safeguard as written, on the memory from the start
      of the output buffer on, so that `buf` may run past the allocation: the slot is
      written and a completed pattern saved as `Bit` does, but the cursor moves on only
      while its index is below `outBufSize`, a count of bytes rather than patterns. */
  function BitAsWritten(g: Gen, b: bool, inverted: bool, chip: ChipDescriptor, outBufSize: nat): (r: Gen)
    requires Tidy(g) && Written(g) < PatternSlots * |g.buf|
    ensures r.buf == Bit(g, b, inverted, chip).buf
    ensures g.ptr < outBufSize ==> r == Bit(g, b, inverted, chip)
  {
    var r := Bit(g, b, inverted, chip);
    if r.ptr != g.ptr && g.ptr >= outBufSize then r.(ptr := g.ptr) else r
  }

  /** The safeguard as it is evidently meant, on a buffer of `patterns` patterns: the
      cursor does not move past the last pattern, so no slot is ever written outside the
      buffer; before the last pattern the step is that of `Bit`. */
  function BitGuarded(g: Gen, b: bool, inverted: bool, chip: ChipDescriptor, patterns: nat): (r: Gen)
    requires Tidy(g) && Written(g) < PatternSlots * |g.buf| && g.ptr < patterns
    ensures r.buf == Bit(g, b, inverted, chip).buf && r.ptr < patterns
    ensures g.ptr + 1 < patterns ==> r == Bit(g, b, inverted, chip)
  {
    var r := Bit(g, b, inverted, chip);
    if r.ptr != g.ptr && g.ptr + 1 >= patterns then r.(ptr := g.ptr) else r
  }

  /** The body of the loop of `generateBits` for one input bit: a passive slot first when
      a 1 bit would start at slot 63, one active slot and a second for a 1 bit, then a
      passive slot unless a pattern has just been completed, and a second one for a 0 bit
      on a chip with doubled passive time under the same condition. */
  function InputBit(g: Gen, bit: bool, inverted: bool, chip: ChipDescriptor): (r: Gen)
    requires Tidy(g) && Written(g) + 4 <= PatternSlots * |g.buf|
    ensures Tidy(r) && |r.buf| == |g.buf| && Written(r) <= Written(g) + 4
  {
    var g1 := if bit && g.bitCount == PatternSlots - 1 then Bit(g, false, inverted, chip) else g;
    var g2 := Bit(g1, true, inverted, chip);
    var g3 := if bit then Bit(g2, true, inverted, chip) else g2;
    if g3.bitCount != 0 then
      var g4 := Bit(g3, false, inverted, chip);
      if !bit && chip.t0PassiveDouble && g4.bitCount != 0 then Bit(g4, false, inverted, chip) else g4
    else g3
  }

  /** The input bits fed one after the other, as `generateBits` does for one LED word and
      `update_leds` for the LEDs of a frame. */
  function Feed(g: Gen, bits: seq<bool>, inverted: bool, chip: ChipDescriptor): (r: Gen)
    requires Tidy(g) && Written(g) + 4 * |bits| <= PatternSlots * |g.buf|
    ensures Tidy(r) && |r.buf| == |g.buf| && Written(r) <= Written(g) + 4 * |bits|
    decreases |bits|
  {
    if bits == [] then g
    else InputBit(Feed(g, bits[..|bits| - 1], inverted, chip), bits[|bits| - 1], inverted, chip)
  }

  /** Feeding one more bit is one more loop body. */
  lemma FeedSnoc(g: Gen, bits: seq<bool>, bit: bool, inverted: bool, chip: ChipDescriptor)
    requires Tidy(g) && Written(g) + 4 * (|bits| + 1) <= PatternSlots * |g.buf|
    ensures Feed(g, bits + [bit], inverted, chip) == InputBit(Feed(g, bits, inverted, chip), bit, inverted, chip)
  {
    assert (bits + [bit])[..|bits|] == bits;
  }

  /** Feeding two runs of bits one after the other is feeding their concatenation. */
  lemma {:induction false} FeedConcat(g: Gen, a: seq<bool>, b: seq<bool>, inverted: bool, chip: ChipDescriptor)
    requires Tidy(g) && Written(g) + 4 * (|a| + |b|) <= PatternSlots * |g.buf|
    ensures Written(Feed(g, a, inverted, chip)) + 4 * |b| <= PatternSlots * |g.buf|
    ensures Feed(g, a + b, inverted, chip) == Feed(Feed(g, a, inverted, chip), b, inverted, chip)
    decreases |b|
  {
    if b == [] {
      assert a + b == a;
    } else {
      var front := b[..|b| - 1];
      FeedConcat(g, a, front, inverted, chip);
      assert (a + b)[..|a + b| - 1] == a + front;
    }
  }

  /** The loop of `finishBitGenerator` over the remaining mask bits: passive slots up
      to the end of the current word, each counted with its time. */
  function FillWord(g: Gen, inverted: bool, chip: ChipDescriptor): (r: Gen)
    requires Tidy(g) && 0 < g.bitCount && g.ptr < |g.buf|
    ensures |r.buf| == |g.buf| && r.ptr == g.ptr
  {
    var second := g.bitCount >= WordSlots;
    var pt := g.buf[g.ptr];
    var fill := if g.outBit == WordSlots then 0 else WordSlots - g.outBit;
    var w := if second then pt.data1 else pt.data0;
    var w' := w[..WordSlots - fill] + OutBits(Passives(fill), inverted);
    var pt' := if second then pt.(data1 := w') else pt.(data0 := w');
    Gen(g.buf[g.ptr := pt'], g.ptr, g.bitCount + fill, WordSlots, g.ns + fill * chip.tPassiveMinNs)
  }

  /** The end of `finishBitGenerator`: a passive second word when the first one was the
      last written, the pattern's time, and the cursor moved past it. */
  function ClosePattern(g: Gen, inverted: bool, chip: ChipDescriptor): (r: Gen)
    requires g.ptr < |g.buf|
    ensures |r.buf| == |g.buf| && r.ptr == g.ptr + 1
  {
    var pt := g.buf[g.ptr];
    var dummy := g.bitCount % PatternSlots != 0;
    var pt' := if dummy then pt.(data1 := OutBits(Passives(WordSlots), inverted)) else pt;
    var ns := if dummy then g.ns + WordSlots * chip.tPassiveMinNs else g.ns;
    Gen(g.buf[g.ptr := pt'.(nanosecs := ns)], g.ptr + 1, if dummy then g.bitCount + WordSlots else g.bitCount,
        WordSlots, ns)
  }

  /** `finishBitGenerator`: a partly filled pattern is filled up with passive slots and
      closed; with no slot pending nothing changes. */
  function Finish(g: Gen, inverted: bool, chip: ChipDescriptor): (r: Gen)
    requires Tidy(g) && (g.bitCount > 0 ==> g.ptr < |g.buf|)
    ensures |r.buf| == |g.buf| && r.ptr <= |r.buf|
  {
    if g.bitCount == 0 then g
    else ClosePattern(FillWord(g, inverted, chip), inverted, chip)
  }

  /** r is what `finishBitGenerator` leaves of g. */
  ghost predicate Finished(g: Gen, r: Gen, inverted: bool, chip: ChipDescriptor)
  {
    Tidy(g) && (g.bitCount > 0 ==> g.ptr < |g.buf|) && r == Finish(g, inverted, chip)
  }

  /** Closing the last pattern leaves every pattern with two 32-bit words. */
  lemma FinishWellFormed(g: Gen, inverted: bool, chip: ChipDescriptor)
    requires Tidy(g) && (g.bitCount > 0 ==> g.ptr < |g.buf|)
    ensures AllWellFormed(Finish(g, inverted, chip).buf)
  {
    if g.bitCount > 0 {
      var f := FillWord(g, inverted, chip);
      assert WellFormed(g.buf[g.ptr]);
      assert AllWellFormed(f.buf);
    }
  }

  // ---------------------------------------------------------------------------
  // The generator stores the encoding

  /** The generator's cursor over the output buffer, after the slots `all`: the first
      64 * ptr of them fill the patterns `buf[..ptr]`, the others (`pending`) have been
      written into pattern `ptr`: its first word once one slot is written, its second
      once 33 are; `ns` is their time. */
  ghost predicate Cursor(g: Gen, all: seq<bool>, inverted: bool, chip: ChipDescriptor)
  {
    && Tidy(g) && |all| == Written(g)
    && (g.bitCount > 0 ==> g.ptr < |g.buf|)
    && g.buf[..g.ptr] == Patterns(all[..PatternSlots * g.ptr], inverted, chip)
    && var pending := all[PatternSlots * g.ptr..];
      && (0 < g.bitCount <= WordSlots ==> g.buf[g.ptr].data0 == PartialWord(pending, inverted))
      && (g.bitCount > WordSlots ==>
            && g.buf[g.ptr].data0 == PartialWord(pending[..WordSlots], inverted)
            && g.buf[g.ptr].data1 == PartialWord(pending[WordSlots..], inverted))
      && g.ns == Duration(pending, chip)
  }

  /** Before the first slot the cursor is at the start of an empty buffer. */
  lemma StartCursor(buf: seq<Pattern>, inverted: bool, chip: ChipDescriptor)
    requires AllWellFormed(buf)
    ensures Cursor(Gen(buf, 0, 0, WordSlots, 0), [], inverted, chip)
  {
  }

  /** The pattern whose 64 slots have all been written is the pattern of those slots. */
  lemma CompletedPattern(pt: Pattern, t: seq<bool>, inverted: bool, chip: ChipDescriptor)
    requires |t| == PatternSlots
    requires pt.data0 == PartialWord(t[..WordSlots], inverted) && pt.data1 == PartialWord(t[WordSlots..], inverted)
    requires pt.nanosecs == Duration(t, chip)
    ensures pt == PatternOf(t, inverted, chip)
  {
    PartialWordFull(t[..WordSlots], inverted);
    PartialWordFull(t[WordSlots..], inverted);
  }

  /** Writing slot |t| into the pattern under construction at bit `om` of the word the
      slot count selects: `data[0]` for slots 0..31, `data[1]` for 32..63, each word
      cleared when the mask is 0, that is when its first slot is written. */
  lemma WrittenSlot(t: seq<bool>, outBit: nat, b: bool, pt: Pattern, pt': Pattern, inverted: bool)
    requires |t| < PatternSlots && outBit == MaskBit(|t|)
    requires 0 < |t| <= WordSlots ==> pt.data0 == PartialWord(t, inverted)
    requires |t| > WordSlots ==>
      pt.data0 == PartialWord(t[..WordSlots], inverted) && pt.data1 == PartialWord(t[WordSlots..], inverted)
    requires var om := if outBit == WordSlots then 0 else outBit;
      var w := if outBit == WordSlots then ClearWord() else if |t| >= WordSlots then pt.data1 else pt.data0;
      om < |w| &&
      pt' == if |t| >= WordSlots then pt.(data1 := w[om := b != inverted]) else pt.(data0 := w[om := b != inverted])
    ensures var u := t + [b];
      && (|u| <= WordSlots ==> pt'.data0 == PartialWord(u, inverted))
      && (|u| > WordSlots ==>
            pt'.data0 == PartialWord(u[..WordSlots], inverted) && pt'.data1 == PartialWord(u[WordSlots..], inverted))
  {
    var u := t + [b];
    if |t| == 0 {
      assert u == [b];
      PartialWordFirst(b, inverted);
    } else if |t| < WordSlots {
      PartialWordSnoc(t, b, inverted);
    } else if |t| == WordSlots {
      assert u[..WordSlots] == t && u[WordSlots..] == [b];
      PartialWordFirst(b, inverted);
    } else {
      assert u[..WordSlots] == t[..WordSlots] && u[WordSlots..] == t[WordSlots..] + [b];
      PartialWordSnoc(t[WordSlots..], b, inverted);
    }
  }

  /** `generateBit` keeps the cursor, one slot further. */
  lemma BitCursor(g: Gen, all: seq<bool>, b: bool, inverted: bool, chip: ChipDescriptor)
    requires Cursor(g, all, inverted, chip) && Written(g) < PatternSlots * |g.buf|
    ensures Cursor(Bit(g, b, inverted, chip), all + [b], inverted, chip)
  {
    var m := PatternSlots * g.ptr;
    var pending := all[m..];
    var r := Bit(g, b, inverted, chip);
    var pt' := r.buf[g.ptr];
    WrittenSlot(pending, g.outBit, b, g.buf[g.ptr],
                if r.ptr == g.ptr then pt' else pt'.(nanosecs := g.buf[g.ptr].nanosecs), inverted);
    DurationSnoc(pending, b, chip);
    assert r.buf[..g.ptr] == g.buf[..g.ptr];
    if g.bitCount + 1 == PatternSlots {
      PatternCompleted(g, r, all, b, inverted, chip);
    } else {
      PatternContinued(g, r, all, b, inverted, chip);
    }
  }

  /** A slot before the 64th stays in the pattern under construction. */
  lemma PatternContinued(g: Gen, r: Gen, all: seq<bool>, b: bool, inverted: bool, chip: ChipDescriptor)
    requires Cursor(g, all, inverted, chip) && Tidy(r) && |r.buf| == |g.buf|
    requires r.ptr == g.ptr < |g.buf| && r.bitCount == g.bitCount + 1 && r.buf[..g.ptr] == g.buf[..g.ptr]
    requires var u := all[PatternSlots * g.ptr..] + [b];
      && (|u| <= WordSlots ==> r.buf[g.ptr].data0 == PartialWord(u, inverted))
      && (|u| > WordSlots ==>
            r.buf[g.ptr].data0 == PartialWord(u[..WordSlots], inverted)
            && r.buf[g.ptr].data1 == PartialWord(u[WordSlots..], inverted))
      && r.ns == Duration(u, chip)
    ensures Cursor(r, all + [b], inverted, chip)
  {
    var m := PatternSlots * g.ptr;
    assert (all + [b])[..m] == all[..m] && (all + [b])[m..] == all[m..] + [b];
  }

  /** The 64th slot completes the pattern under construction. */
  lemma PatternCompleted(g: Gen, r: Gen, all: seq<bool>, b: bool, inverted: bool, chip: ChipDescriptor)
    requires Cursor(g, all, inverted, chip) && Tidy(r) && |r.buf| == |g.buf|
    requires g.bitCount + 1 == PatternSlots
    requires r.ptr == g.ptr + 1 && r.bitCount == 0 && r.ns == 0 && r.buf[..g.ptr] == g.buf[..g.ptr]
    requires var u := all[PatternSlots * g.ptr..] + [b];
      && r.buf[g.ptr].data0 == PartialWord(u[..WordSlots], inverted)
      && r.buf[g.ptr].data1 == PartialWord(u[WordSlots..], inverted)
      && r.buf[g.ptr].nanosecs == Duration(u, chip)
    ensures Cursor(r, all + [b], inverted, chip)
  {
    var m := PatternSlots * g.ptr;
    var pending := all[m..];
    var u := pending + [b];
    CompletedPattern(r.buf[g.ptr], u, inverted, chip);
    PrefixSnoc(r.buf, g.buf, g.ptr, all[..m], u, inverted, chip);
    assert all == all[..m] + pending;
    Assoc(all[..m], pending, [b]);
    assert (all + [b])[..PatternSlots * r.ptr] == all[..m] + u;
    assert (all + [b])[PatternSlots * r.ptr..] == [];
  }

  /** A buffer that agrees with another on the patterns of the slots s, followed by the
      pattern of the slots u, holds the patterns of s + u. */
  lemma PrefixSnoc(rb: seq<Pattern>, gb: seq<Pattern>, k: nat, s: seq<bool>, u: seq<bool>,
                   inverted: bool, chip: ChipDescriptor)
    requires k < |rb| && k <= |gb| && rb[..k] == gb[..k]
    requires |s| % PatternSlots == 0 && gb[..k] == Patterns(s, inverted, chip)
    requires |u| == PatternSlots && rb[k] == PatternOf(u, inverted, chip)
    ensures rb[..k + 1] == Patterns(s + u, inverted, chip)
  {
    PatternsSnoc(s, u, inverted, chip);
    assert rb[..k + 1] == rb[..k] + [rb[k]];
  }

  /** Slots written one after the other by `generateBit`. */
  function WriteSlots(g: Gen, s: seq<bool>, inverted: bool, chip: ChipDescriptor): (r: Gen)
    requires Tidy(g) && Written(g) + |s| <= PatternSlots * |g.buf|
    ensures Tidy(r) && |r.buf| == |g.buf| && Written(r) == Written(g) + |s|
    decreases |s|
  {
    if s == [] then g else WriteSlots(Bit(g, s[0], inverted, chip), s[1..], inverted, chip)
  }

  /** The cursor moves over slots written one after the other. */
  lemma {:induction false} SlotsCursor(g: Gen, all: seq<bool>, s: seq<bool>, inverted: bool, chip: ChipDescriptor)
    requires Cursor(g, all, inverted, chip) && Written(g) + |s| <= PatternSlots * |g.buf|
    ensures Cursor(WriteSlots(g, s, inverted, chip), all + s, inverted, chip)
    decreases |s|
  {
    if s == [] {
      assert all + s == all;
    } else {
      assert [s[0]] + s[1..] == s;
      Assoc(all, [s[0]], s[1..]);
      BitCursor(g, all, s[0], inverted, chip);
      SlotsCursor(Bit(g, s[0], inverted, chip), all + [s[0]], s[1..], inverted, chip);
    }
  }

  /** The bit count is the slot count modulo 64. */
  lemma CountMod(g: Gen)
    requires Tidy(g)
    ensures g.bitCount == Written(g) % PatternSlots
  {
  }

  /** The loop body of `generateBits` writes the slots of the slot rule. */
  lemma InputBitSlots(g: Gen, bit: bool, inverted: bool, chip: ChipDescriptor)
    requires Tidy(g) && Written(g) + 4 <= PatternSlots * |g.buf|
    ensures var s := BitSlots(Written(g), bit, chip.t0PassiveDouble);
      Written(g) + |s| <= PatternSlots * |g.buf| && InputBit(g, bit, inverted, chip) == WriteSlots(g, s, inverted, chip)
  {
    BitSlotsAt(Written(g), bit, chip.t0PassiveDouble);
    CountMod(g);
    if bit {
      OneSlots(g, inverted, chip);
    } else {
      ZeroSlots(g, inverted, chip);
    }
  }

  /** A 1 bit: a passive slot first at slot 63, two active slots, and a passive one unless
      they end the pattern. */
  lemma OneSlots(g: Gen, inverted: bool, chip: ChipDescriptor)
    requires Tidy(g) && Written(g) + 4 <= PatternSlots * |g.buf|
    ensures var s := SlotTable(g.bitCount, true, chip.t0PassiveDouble);
      Written(g) + |s| <= PatternSlots * |g.buf| && InputBit(g, true, inverted, chip) == WriteSlots(g, s, inverted, chip)
  {
    var s := SlotTable(g.bitCount, true, chip.t0PassiveDouble);
    SlotsUnfold(g, s, inverted, chip);
    var r := InputBit(g, true, inverted, chip);
    var g1 := if g.bitCount == PatternSlots - 1 then Bit(g, false, inverted, chip) else g;
    var g3 := Bit(Bit(g1, true, inverted, chip), true, inverted, chip);
    CountMod(g3);
    if g.bitCount == PatternSlots - 1 {
      assert r == Bit(g3, false, inverted, chip);
    } else if g.bitCount == PatternSlots - 2 {
      assert r == g3;
    } else {
      assert r == Bit(g3, false, inverted, chip);
    }
  }

  /** A 0 bit: one active slot, and one or two passive ones unless the pattern ends first. */
  lemma ZeroSlots(g: Gen, inverted: bool, chip: ChipDescriptor)
    requires Tidy(g) && Written(g) + 4 <= PatternSlots * |g.buf|
    ensures var s := SlotTable(g.bitCount, false, chip.t0PassiveDouble);
      Written(g) + |s| <= PatternSlots * |g.buf| && InputBit(g, false, inverted, chip) == WriteSlots(g, s, inverted, chip)
  {
    var s := SlotTable(g.bitCount, false, chip.t0PassiveDouble);
    SlotsUnfold(g, s, inverted, chip);
    var r := InputBit(g, false, inverted, chip);
    var g2 := Bit(g, true, inverted, chip);
    CountMod(g2);
    if g.bitCount == PatternSlots - 1 {
      assert r == g2;
    } else {
      var g4 := Bit(g2, false, inverted, chip);
      CountMod(g4);
      if chip.t0PassiveDouble && g.bitCount < PatternSlots - 2 {
        assert r == Bit(g4, false, inverted, chip);
      } else {
        assert r == g4;
      }
    }
  }

  /** `WriteSlots` over at most four slots, one `Bit` after the other. */
  lemma SlotsUnfold(g: Gen, s: seq<bool>, inverted: bool, chip: ChipDescriptor)
    requires 1 <= |s| <= 4 && Tidy(g) && Written(g) + |s| <= PatternSlots * |g.buf|
    ensures var g1 := Bit(g, s[0], inverted, chip);
      && (|s| == 1 ==> WriteSlots(g, s, inverted, chip) == g1)
      && (|s| >= 2 ==> var g2 := Bit(g1, s[1], inverted, chip);
           && (|s| == 2 ==> WriteSlots(g, s, inverted, chip) == g2)
           && (|s| >= 3 ==> var g3 := Bit(g2, s[2], inverted, chip);
                && (|s| == 3 ==> WriteSlots(g, s, inverted, chip) == g3)
                && (|s| == 4 ==> WriteSlots(g, s, inverted, chip) == Bit(g3, s[3], inverted, chip))))
  {
    var g1 := Bit(g, s[0], inverted, chip);
    assert WriteSlots(g, s, inverted, chip) == WriteSlots(g1, s[1..], inverted, chip);
    if |s| >= 2 {
      var g2 := Bit(g1, s[1], inverted, chip);
      assert WriteSlots(g1, s[1..], inverted, chip) == WriteSlots(g2, s[2..], inverted, chip);
      if |s| >= 3 {
        var g3 := Bit(g2, s[2], inverted, chip);
        assert WriteSlots(g2, s[2..], inverted, chip) == WriteSlots(g3, s[3..], inverted, chip);
        if |s| == 4 {
          assert WriteSlots(g3, s[3..], inverted, chip) == WriteSlots(Bit(g3, s[3], inverted, chip), s[4..], inverted, chip);
        }
      }
    }
  }

  /** The loop body of `generateBits` keeps the cursor and appends the slots of the slot rule. */
  lemma InputBitCursor(g: Gen, all: seq<bool>, bit: bool, inverted: bool, chip: ChipDescriptor)
    requires Cursor(g, all, inverted, chip) && Written(g) + 4 <= PatternSlots * |g.buf|
    ensures Cursor(InputBit(g, bit, inverted, chip), all + BitSlots(|all|, bit, chip.t0PassiveDouble), inverted, chip)
  {
    InputBitSlots(g, bit, inverted, chip);
    SlotsCursor(g, all, BitSlots(|all|, bit, chip.t0PassiveDouble), inverted, chip);
  }

  /** Feeding input bits keeps the cursor and appends their slots. */
  lemma {:induction false} FeedCursor(g: Gen, all: seq<bool>, bits: seq<bool>, inverted: bool, chip: ChipDescriptor)
    requires Cursor(g, all, inverted, chip) && Written(g) + 4 * |bits| <= PatternSlots * |g.buf|
    ensures Cursor(Feed(g, bits, inverted, chip), all + SlotsFrom(bits, |all|, chip.t0PassiveDouble), inverted, chip)
    decreases |bits|
  {
    var dbl := chip.t0PassiveDouble;
    if bits == [] {
      assert all + SlotsFrom(bits, |all|, dbl) == all;
    } else {
      var front := bits[..|bits| - 1];
      var last := bits[|bits| - 1];
      var f := SlotsFrom(front, |all|, dbl);
      SlotsSnocAt(all, bits, dbl);
      var h := Feed(g, front, inverted, chip);
      assert Feed(g, bits, inverted, chip) == InputBit(h, last, inverted, chip);
      FeedCursor(g, all, front, inverted, chip);
      InputBitCursor(h, all + f, last, inverted, chip);
    }
  }

  /** The slots of the input bits, the last bit's slots placed after the others'. */
  lemma SlotsSnocAt(all: seq<bool>, bits: seq<bool>, dbl: bool)
    requires bits != []
    ensures var f := SlotsFrom(bits[..|bits| - 1], |all|, dbl);
      all + SlotsFrom(bits, |all|, dbl) == (all + f) + BitSlots(|all + f|, bits[|bits| - 1], dbl)
  {
    var front := bits[..|bits| - 1];
    var last := bits[|bits| - 1];
    var n := |all|;
    var f := SlotsFrom(front, n, dbl);
    var bs := BitSlots(n + |f|, last, dbl);
    assert bits == front + [last];
    SlotsFromSnoc(front, last, n, dbl);
    assert SlotsFrom(bits, n, dbl) == f + bs;
    Assoc(all, f, bs);
  }

  // ---------------------------------------------------------------------------
  // Completing the last pattern

  /** The written part of a partially written word. */
  lemma PartialWordPrefix(t: seq<bool>, inverted: bool)
    requires |t| <= WordSlots
    ensures PartialWord(t, inverted)[..|t|] == OutBits(t, inverted)
  {
  }

  /** Levels of slots sent one after the other. */
  lemma OutBitsConcat(s: seq<bool>, t: seq<bool>, inverted: bool)
    ensures OutBits(s + t, inverted) == OutBits(s, inverted) + OutBits(t, inverted)
  {
  }

  /** Passive runs sent one after the other. */
  lemma PassivesConcat(a: nat, b: nat)
    ensures Passives(a) + Passives(b) == Passives(a + b)
  {
  }

  /** A passive run lasts TPassive_min per slot. */
  lemma PassivesDuration(k: nat, chip: ChipDescriptor)
    ensures Duration(Passives(k), chip) == k * chip.tPassiveMinNs
  {
    DurationByCount(Passives(k), chip);
    NoActive(Passives(k));
  }

  /** `finishBitGenerator` on a partly filled pattern: it becomes the pattern of the
      pending slots padded with passive slots, and the patterns before it stay. */
  lemma FinishedPattern(g: Gen, pending: seq<bool>, inverted: bool, chip: ChipDescriptor)
    requires Tidy(g) && 0 < g.bitCount && g.ptr < |g.buf| && |pending| == g.bitCount
    requires g.bitCount <= WordSlots ==> g.buf[g.ptr].data0 == PartialWord(pending, inverted)
    requires g.bitCount > WordSlots ==>
      && g.buf[g.ptr].data0 == PartialWord(pending[..WordSlots], inverted)
      && g.buf[g.ptr].data1 == PartialWord(pending[WordSlots..], inverted)
    requires g.ns == Duration(pending, chip)
    ensures var r := Finish(g, inverted, chip);
      && r.ptr == g.ptr + 1 && r.buf[..g.ptr] == g.buf[..g.ptr]
      && r.buf[g.ptr] == PatternOf(pending + Passives(PatternSlots - |pending|), inverted, chip)
  {
    var r := Finish(g, inverted, chip);
    var bc := g.bitCount;
    var pad := Passives(PatternSlots - bc);
    var t := pending + pad;
    FinishKeeps(g, inverted, chip);
    DurationConcat(pending, pad, chip);
    PassivesDuration(PatternSlots - bc, chip);
    if bc < WordSlots {
      FinishedLow(g, pending, inverted, chip);
    } else if bc == WordSlots {
      FinishedMid(g, pending, inverted, chip);
    } else {
      FinishedHigh(g, pending, inverted, chip);
    }
  }

  /** `finishBitGenerator` moves past the current pattern and leaves those before it. */
  lemma FinishKeeps(g: Gen, inverted: bool, chip: ChipDescriptor)
    requires Tidy(g) && 0 < g.bitCount && g.ptr < |g.buf|
    ensures var r := Finish(g, inverted, chip);
      r.ptr == g.ptr + 1 && r.buf[..g.ptr] == g.buf[..g.ptr]
  {
    var f := FillWord(g, inverted, chip);
    assert f.buf[..g.ptr] == g.buf[..g.ptr];
    assert ClosePattern(f, inverted, chip).buf[..g.ptr] == f.buf[..g.ptr];
  }

  /** The words of a pattern finished with fewer than 32 slots pending. */
  lemma FinishedLow(g: Gen, pending: seq<bool>, inverted: bool, chip: ChipDescriptor)
    requires Tidy(g) && 0 < g.bitCount < WordSlots && g.ptr < |g.buf| && |pending| == g.bitCount
    requires g.buf[g.ptr].data0 == PartialWord(pending, inverted)
    ensures var fin := Finish(g, inverted, chip).buf[g.ptr];
      var t := pending + Passives(PatternSlots - |pending|);
      && fin.data0 == OutBits(t[..WordSlots], inverted) && fin.data1 == OutBits(t[WordSlots..], inverted)
      && fin.nanosecs == g.ns + (PatternSlots - |pending|) * chip.tPassiveMinNs
  {
    var fill := WordSlots - g.bitCount;
    var t := pending + Passives(PatternSlots - |pending|);
    FinishLow(g, inverted, chip);
    PartialWordPrefix(pending, inverted);
    PassivesConcat(fill, WordSlots);
    assert t[..WordSlots] == pending + Passives(fill) && t[WordSlots..] == Passives(WordSlots) by {
      Assoc(pending, Passives(fill), Passives(WordSlots));
    }
    OutBitsConcat(pending, Passives(fill), inverted);
    Distrib(fill, WordSlots, chip.tPassiveMinNs);
  }

  /** The words of a pattern finished with exactly 32 slots pending. */
  lemma FinishedMid(g: Gen, pending: seq<bool>, inverted: bool, chip: ChipDescriptor)
    requires Tidy(g) && g.bitCount == WordSlots && g.ptr < |g.buf| && |pending| == g.bitCount
    requires g.buf[g.ptr].data0 == PartialWord(pending, inverted)
    ensures var fin := Finish(g, inverted, chip).buf[g.ptr];
      var t := pending + Passives(PatternSlots - |pending|);
      && fin.data0 == OutBits(t[..WordSlots], inverted) && fin.data1 == OutBits(t[WordSlots..], inverted)
      && fin.nanosecs == g.ns + (PatternSlots - |pending|) * chip.tPassiveMinNs
  {
    var t := pending + Passives(PatternSlots - |pending|);
    FinishMid(g, inverted, chip);
    assert t[..WordSlots] == pending && t[WordSlots..] == Passives(WordSlots);
    PartialWordFull(pending, inverted);
  }

  /** The words of a pattern finished with more than 32 slots pending. */
  lemma FinishedHigh(g: Gen, pending: seq<bool>, inverted: bool, chip: ChipDescriptor)
    requires Tidy(g) && WordSlots < g.bitCount && g.ptr < |g.buf| && |pending| == g.bitCount
    requires g.buf[g.ptr].data0 == PartialWord(pending[..WordSlots], inverted)
    requires g.buf[g.ptr].data1 == PartialWord(pending[WordSlots..], inverted)
    ensures var fin := Finish(g, inverted, chip).buf[g.ptr];
      var t := pending + Passives(PatternSlots - |pending|);
      && fin.data0 == OutBits(t[..WordSlots], inverted) && fin.data1 == OutBits(t[WordSlots..], inverted)
      && fin.nanosecs == g.ns + (PatternSlots - |pending|) * chip.tPassiveMinNs
  {
    var pad := Passives(PatternSlots - |pending|);
    var t := pending + pad;
    var hi := pending[WordSlots..];
    FinishHigh(g, inverted, chip);
    PartialWordPrefix(hi, inverted);
    assert t[..WordSlots] == pending[..WordSlots] && t[WordSlots..] == hi + pad;
    OutBitsConcat(hi, pad, inverted);
    PartialWordFull(pending[..WordSlots], inverted);
  }

  /** `finishBitGenerator` on a pattern with fewer than 32 slots: the rest of `data[0]`
      and a passive `data[1]`. */
  lemma FinishLow(g: Gen, inverted: bool, chip: ChipDescriptor)
    requires Tidy(g) && 0 < g.bitCount < WordSlots && g.ptr < |g.buf|
    ensures var pt := g.buf[g.ptr];
      var fill := WordSlots - g.bitCount;
      var r := Finish(g, inverted, chip);
      && r.buf[g.ptr].data0 == pt.data0[..g.bitCount] + OutBits(Passives(fill), inverted)
      && r.buf[g.ptr].data1 == OutBits(Passives(WordSlots), inverted)
      && r.buf[g.ptr].nanosecs == g.ns + fill * chip.tPassiveMinNs + WordSlots * chip.tPassiveMinNs
  {
  }

  /** `finishBitGenerator` on a pattern with exactly 32 slots: a passive `data[1]`. */
  lemma FinishMid(g: Gen, inverted: bool, chip: ChipDescriptor)
    requires Tidy(g) && g.bitCount == WordSlots && g.ptr < |g.buf|
    ensures var r := Finish(g, inverted, chip);
      && r.buf[g.ptr].data0 == g.buf[g.ptr].data0
      && r.buf[g.ptr].data1 == OutBits(Passives(WordSlots), inverted)
      && r.buf[g.ptr].nanosecs == g.ns + WordSlots * chip.tPassiveMinNs
  {
  }

  /** `finishBitGenerator` on a pattern with more than 32 slots: the rest of `data[1]`. */
  lemma FinishHigh(g: Gen, inverted: bool, chip: ChipDescriptor)
    requires Tidy(g) && WordSlots < g.bitCount && g.ptr < |g.buf|
    ensures var pt := g.buf[g.ptr];
      var fill := PatternSlots - g.bitCount;
      var r := Finish(g, inverted, chip);
      && r.buf[g.ptr].data0 == pt.data0
      && r.buf[g.ptr].data1 == pt.data1[..g.bitCount - WordSlots] + OutBits(Passives(fill), inverted)
      && r.buf[g.ptr].nanosecs == g.ns + fill * chip.tPassiveMinNs
  {
    assert g.bitCount % WordSlots == g.bitCount - WordSlots;
    assert g.outBit == g.bitCount - WordSlots;
  }

  lemma Distrib(a: nat, b: nat, c: nat)
    ensures a * c + b * c == (a + b) * c
  {
  }

  /** `finishBitGenerator` leaves the patterns of the slots padded to whole patterns at
      the start of the buffer, and returns their number. */
  lemma FinishCursor(g: Gen, all: seq<bool>, inverted: bool, chip: ChipDescriptor)
    requires Cursor(g, all, inverted, chip)
    ensures var r := Finish(g, inverted, chip);
      r.ptr == |Pad(all)| / PatternSlots && r.buf[..r.ptr] == Patterns(Pad(all), inverted, chip)
  {
    var m := PatternSlots * g.ptr;
    var pending := all[m..];
    if g.bitCount == 0 {
      assert all[..m] == all;
    } else {
      FinishedPattern(g, pending, inverted, chip);
      assert all == all[..m] + pending;
      ClosedCursor(all[..m], pending, g.buf, g.ptr, Finish(g, inverted, chip), inverted, chip);
    }
  }

  /** The closed pattern is the last of the padded slots' patterns. */
  lemma ClosedCursor(done: seq<bool>, pending: seq<bool>, buf: seq<Pattern>, ptr: nat, r: Gen,
                     inverted: bool, chip: ChipDescriptor)
    requires |done| % PatternSlots == 0 && 0 < |pending| < PatternSlots
    requires ptr <= |buf| && buf[..ptr] == Patterns(done, inverted, chip)
    requires r.ptr == ptr + 1 && r.ptr <= |r.buf| && r.buf[..ptr] == buf[..ptr]
    requires r.buf[ptr] == PatternOf(pending + Passives(PatternSlots - |pending|), inverted, chip)
    ensures r.ptr == |Pad(done + pending)| / PatternSlots
    ensures r.buf[..r.ptr] == Patterns(Pad(done + pending), inverted, chip)
  {
    var pad := Passives(PatternSlots - |pending|);
    assert |done + pending| % PatternSlots == |pending|;
    assert Pad(done + pending) == done + (pending + pad) by {
      Assoc(done, pending, pad);
    }
    PatternsSnoc(done, pending + pad, inverted, chip);
    PrefixSnocAt(r.buf, ptr);
  }

  /** The generator run of `update_leds` from the start of the buffer: the patterns it
      leaves are the encoding of the input bits, and it returns their number. */
  lemma GeneratedFrame(buf: seq<Pattern>, bits: seq<bool>, inverted: bool, chip: ChipDescriptor)
    requires AllWellFormed(buf) && 4 * |bits| <= PatternSlots * |buf|
    ensures var g := Feed(Gen(buf, 0, 0, WordSlots, 0), bits, inverted, chip);
      && (g.bitCount > 0 ==> g.ptr < |g.buf|)
      && var r := Finish(g, inverted, chip);
        && r.ptr == |Encode(bits, chip, inverted)|
        && r.buf[..r.ptr] == Encode(bits, chip, inverted)
        && AllWellFormed(r.buf)
  {
    var g0 := Gen(buf, 0, 0, WordSlots, 0);
    StartCursor(buf, inverted, chip);
    FeedCursor(g0, [], bits, inverted, chip);
    var all := [] + SlotsFrom(bits, 0, chip.t0PassiveDouble);
    assert all == Slots(bits, chip.t0PassiveDouble);
    FinishCursor(Feed(g0, bits, inverted, chip), all, inverted, chip);
    FinishWellFormed(Feed(g0, bits, inverted, chip), inverted, chip);
  }

  /** The generator may be finished once the bits of a frame are fed. */
  lemma FedFrame(buf: seq<Pattern>, bits: seq<bool>, inverted: bool, chip: ChipDescriptor)
    requires AllWellFormed(buf) && 4 * |bits| <= PatternSlots * |buf|
    ensures var g := Feed(Gen(buf, 0, 0, WordSlots, 0), bits, inverted, chip);
      Tidy(g) && (g.bitCount > 0 ==> g.ptr < |g.buf|)
  {
    GeneratedFrame(buf, bits, inverted, chip);
  }

  /** GeneratedFrame, for a run whose result is given as a finished state. */
  lemma FinishedFrame(buf: seq<Pattern>, bits: seq<bool>, g: Gen, r: Gen, inverted: bool, chip: ChipDescriptor)
    requires AllWellFormed(buf) && 4 * |bits| <= PatternSlots * |buf|
    requires g == Feed(Gen(buf, 0, 0, WordSlots, 0), bits, inverted, chip)
    requires Finished(g, r, inverted, chip) == true
    ensures r.ptr == |Encode(bits, chip, inverted)| <= |r.buf| && AllWellFormed(r.buf)
    ensures r.buf[..r.ptr] == Encode(bits, chip, inverted)
  {
    GeneratedFrame(buf, bits, inverted, chip);
  }

  // ---------------------------------------------------------------------------
  // Loop invariants of the generator's callers

  /** The input side of the loop of `generateBits` after reading `done` of the `total` low
      bits of w: n bits still to read, the mask on the highest of them. */
  predicate MaskLoop(w: bv32, total: bv8, n: bv8, inMask: bv32, done: seq<bool>)
  {
    && 0 < total <= 32 && n <= total && |done| + n as int == total as int
    && MsbBits(w, total) == done + MsbBits(w, n)
    && (n > 0 ==> inMask == 1 << (n - 1))
  }

  /** The loop of `generateBits`: the generator has been fed the bits read. */
  ghost predicate BitsLoop(g0: Gen, w: bv32, total: bv8, n: bv8, inMask: bv32, done: seq<bool>, g: Gen,
                           inverted: bool, chip: ChipDescriptor)
  {
    && MaskLoop(w, total, n, inMask, done)
    && Tidy(g0) && Written(g0) + 4 * total as int <= PatternSlots * |g0.buf|
    && g == Feed(g0, done, inverted, chip)
  }

  lemma BitsLoopStart(g0: Gen, w: bv32, total: bv8, inverted: bool, chip: ChipDescriptor)
    requires 0 < total <= 32 && Tidy(g0) && Written(g0) + 4 * total as int <= PatternSlots * |g0.buf|
    ensures BitsLoop(g0, w, total, total, 1 << (total - 1), [], g0, inverted, chip)
  {
  }

  /** Reading the bit under the mask and halving the mask. */
  lemma MaskLoopNext(w: bv32, total: bv8, n: bv8, inMask: bv32, done: seq<bool>)
    requires MaskLoop(w, total, n, inMask, done) && n > 0
    ensures MaskLoop(w, total, n - 1, inMask >> 1, done + [w & inMask != 0])
  {
    MsbBitsNext(w, total, n, done);
    if n > 1 {
      MaskShr(n - 1);
    }
  }

  /** One pass of the loop: the bit under the mask is the next bit, and feeding it is the loop body. */
  lemma BitsLoopBody(g0: Gen, w: bv32, total: bv8, n: bv8, inMask: bv32, done: seq<bool>, g: Gen,
                     inverted: bool, chip: ChipDescriptor)
    requires BitsLoop(g0, w, total, n, inMask, done, g, inverted, chip) && n > 0
    ensures Tidy(g) && Written(g) + 4 <= PatternSlots * |g.buf| && |g.buf| == |g0.buf|
    ensures var bit := w & inMask != 0;
      BitsLoop(g0, w, total, n - 1, inMask >> 1, done + [bit], InputBit(g, bit, inverted, chip), inverted, chip)
  {
    var bit := w & inMask != 0;
    MaskLoopNext(w, total, n, inMask, done);
    FeedSnoc(g0, done, bit, inverted, chip);
  }

  lemma BitsLoopEnd(g0: Gen, w: bv32, total: bv8, inMask: bv32, done: seq<bool>, g: Gen,
                    inverted: bool, chip: ChipDescriptor)
    requires BitsLoop(g0, w, total, 0, inMask, done, g, inverted, chip)
    ensures g == Feed(g0, MsbBits(w, total), inverted, chip)
  {
    assert MsbBits(w, 0) == [];
    assert done == MsbBits(w, total);
  }

  /** Word w0 with bits lo..hi-1 set to the passive level, one after the other, as
      the fill loop of `finishBitGenerator` sets them. */
  function Filled(w0: seq<bool>, lo: nat, hi: nat, inverted: bool): (w: seq<bool>)
    requires lo <= hi <= |w0|
    ensures |w| == |w0|
    decreases hi
  {
    if hi == lo then w0 else Filled(w0, lo, hi - 1, inverted)[hi - 1 := inverted]
  }

  /** The filled bits are the output levels of passive slots; the others stay. */
  lemma {:induction false} FilledParts(w0: seq<bool>, lo: nat, hi: nat, inverted: bool)
    requires lo <= hi <= |w0|
    ensures Filled(w0, lo, hi, inverted) == w0[..lo] + OutBits(Passives(hi - lo), inverted) + w0[hi..]
    decreases hi
  {
    if hi > lo {
      var k := hi - 1 - lo;
      FilledParts(w0, lo, hi - 1, inverted);
      assert Passives(k + 1) == Passives(k) + [false];
      OutBitsConcat(Passives(k), [false], inverted);
      assert OutBits([false], inverted) == [inverted];
      var x := w0[..lo] + OutBits(Passives(k), inverted);
      assert w0[hi - 1..] == [w0[hi - 1]] + w0[hi..];
      Assoc(x, [inverted], w0[hi..]);
      Assoc(w0[..lo], OutBits(Passives(k), inverted), [inverted]);
    } else {
      assert OutBits(Passives(0), inverted) == [];
    }
  }

  /** What the fill loop leaves: the word with its remaining bits passive. */
  lemma FilledWord(g: Gen, w: seq<bool>, inverted: bool, chip: ChipDescriptor)
    requires Tidy(g) && 0 < g.bitCount && g.ptr < |g.buf|
    requires var pt := g.buf[g.ptr];
      var w0 := if g.bitCount >= WordSlots then pt.data1 else pt.data0;
      w == Filled(w0, g.outBit, WordSlots, inverted)
    ensures var pt := g.buf[g.ptr];
      var second := g.bitCount >= WordSlots;
      var f := FillWord(g, inverted, chip);
      && f.buf == g.buf[g.ptr := if second then pt.(data1 := w) else pt.(data0 := w)]
      && f.bitCount == g.bitCount + (WordSlots - g.outBit) && f.outBit == WordSlots
      && f.ns == g.ns + (WordSlots - g.outBit) * chip.tPassiveMinNs
  {
    var pt := g.buf[g.ptr];
    var w0 := if g.bitCount >= WordSlots then pt.data1 else pt.data0;
    assert WellFormed(pt);
    FilledParts(w0, g.outBit, WordSlots, inverted);
    assert w0[WordSlots..] == [];
    var fill := if g.outBit == WordSlots then 0 else WordSlots - g.outBit;
    assert WordSlots - g.outBit == fill;
    assert w == w0[..WordSlots - fill] + OutBits(Passives(fill), inverted);
  }

  /** Filling the current word takes the slot count to the end of that word. */
  lemma FilledCount(g: Gen)
    requires Tidy(g) && 0 < g.bitCount
    ensures g.bitCount + (WordSlots - g.outBit) == if g.bitCount > WordSlots then PatternSlots else WordSlots
  {
    if g.bitCount < WordSlots {
      assert g.outBit == g.bitCount;
    } else if g.bitCount > WordSlots {
      assert g.bitCount % WordSlots == g.bitCount - WordSlots;
    }
  }
}
