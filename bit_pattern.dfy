// The waveform the driver builds from payload bits.
//
// The PWM unit sends a pattern of 64 slots. A slot is active (high, or low
// on an inverted chain) for the chip's T0 active time, or passive for its
// minimal passive time. A payload bit is one active slot (0 bit) or two
// (1 bit), followed by passive slots. This module states the slot rule of
// `generateBits`, the padding of `finishBitGenerator`, the way slots are
// stored in `PWMPattern_t` records, and the decoding an LED chip performs,
// which inverts the encoding.
//
// Slot positions are absolute: the n-th slot of a frame lies at position
// n % 64 of pattern n / 64.
module BitPattern {
  import opened Common
  import opened LedTypes

  const PatternSlots: nat := 64
  const WordSlots: nat := 32

  /** `PWMPattern_t`. Each `u32` data word is modelled as its 32 bits, bit k at
      index k: slots 0..31 of the pattern are `data[0]`, slots 32..63 `data[1]`,
      least significant bit first. */
  datatype Pattern = Pattern(data0: seq<bool>, data1: seq<bool>, nanosecs: nat)

  /** Both data words have 32 bits. */
  predicate WellFormed(pt: Pattern)
  {
    |pt.data0| == WordSlots && |pt.data1| == WordSlots
  }

  // ---------------------------------------------------------------------------
  // Slot rule

  /** Slots (true = active) that one payload bit produces at position p of the
      current pattern: a 1 bit is two active slots and a 0 bit one, each followed
      by a passive slot unless the pattern has just been completed; a 0 bit on a
      chip with doubled passive time gets two passive slots unless the second
      would be the first of a new pattern; a 1 bit due at p = 63 is pushed into
      the next pattern by one passive slot. `SlotRule` derives this table from
      the slot-by-slot rule. */
  function SlotTable(p: nat, bit: bool, dbl: bool): (s: seq<bool>)
    ensures 1 <= |s| <= 4
  {
    if bit then
      if p == PatternSlots - 1 then [false, true, true, false]
      else if p == PatternSlots - 2 then [true, true]
      else [true, true, false]
    else if p == PatternSlots - 1 then [true]
    else if dbl && p < PatternSlots - 2 then [true, false, false]
    else [true, false]
  }

  /** Slots of one payload bit when n slots have been emitted before it: those of
      its position in the current pattern, found by going back whole patterns. */
  function BitSlots(n: nat, bit: bool, dbl: bool): (s: seq<bool>)
    ensures 1 <= |s| <= 4
    decreases n
  {
    if n >= PatternSlots then BitSlots(n - PatternSlots, bit, dbl) else SlotTable(n, bit, dbl)
  }

  /** The slots of a bit are the table entry of its position n % 64. */
  lemma {:induction false} BitSlotsAt(n: nat, bit: bool, dbl: bool)
    ensures BitSlots(n, bit, dbl) == SlotTable(n % PatternSlots, bit, dbl)
    decreases n
  {
    if n >= PatternSlots {
      BitSlotsAt(n - PatternSlots, bit, dbl);
    }
  }

  /** Slots of a bit sequence when n slots have been emitted before it. */
  function SlotsFrom(bits: seq<bool>, n: nat, dbl: bool): seq<bool>
    decreases |bits|
  {
    if bits == [] then []
    else
      var s := BitSlots(n, bits[0], dbl);
      s + SlotsFrom(bits[1..], n + |s|, dbl)
  }

  /** Slots of a whole frame, which starts with an empty pattern. */
  function Slots(bits: seq<bool>, dbl: bool): seq<bool>
  {
    SlotsFrom(bits, 0, dbl)
  }

  /** Slots of a concatenation: the second part starts where the first one ended. */
  lemma {:induction false} SlotsFromConcat(a: seq<bool>, b: seq<bool>, n: nat, dbl: bool)
    ensures SlotsFrom(a + b, n, dbl)
         == SlotsFrom(a, n, dbl) + SlotsFrom(b, n + |SlotsFrom(a, n, dbl)|, dbl)
    decreases |a|
  {
    if a == [] {
      assert a + b == b;
    } else {
      SlotsFromConcat(a[1..], b, n + |BitSlots(n, a[0], dbl)|, dbl);
      SlotsFromConcatStep(a, b, n, dbl);
    }
  }

  /** The step of `SlotsFromConcat`: from the bits after the first one to all of them. */
  lemma SlotsFromConcatStep(a: seq<bool>, b: seq<bool>, n: nat, dbl: bool)
    requires a != []
    requires var m := n + |BitSlots(n, a[0], dbl)|;
      SlotsFrom(a[1..] + b, m, dbl) == SlotsFrom(a[1..], m, dbl) + SlotsFrom(b, m + |SlotsFrom(a[1..], m, dbl)|, dbl)
    ensures SlotsFrom(a + b, n, dbl)
         == SlotsFrom(a, n, dbl) + SlotsFrom(b, n + |SlotsFrom(a, n, dbl)|, dbl)
  {
    var s := BitSlots(n, a[0], dbl);
    var m := n + |s|;
    var u := SlotsFrom(a[1..], m, dbl);
    var v := SlotsFrom(b, m + |u|, dbl);
    var x := SlotsFrom(a + b, n, dbl);
    var y := SlotsFrom(a, n, dbl);
    assert (a + b)[0] == a[0] && (a + b)[1..] == a[1..] + b;
    SlotsFromFirst(a + b, n, dbl);
    SlotsFromFirst(a, n, dbl);
    assert x == s + (u + v);
    assert y == s + u;
    Assoc(s, u, v);
    assert n + |y| == m + |u|;
    assert SlotsFrom(b, n + |y|, dbl) == v;
  }

  /** The slots of a bit sequence start with those of its first bit. */
  lemma SlotsFromFirst(a: seq<bool>, n: nat, dbl: bool)
    requires a != []
    ensures SlotsFrom(a, n, dbl) == BitSlots(n, a[0], dbl) + SlotsFrom(a[1..], n + |BitSlots(n, a[0], dbl)|, dbl)
  {
  }

  /** Appending one bit appends its slots, placed after the slots already emitted. */
  lemma SlotsFromSnoc(a: seq<bool>, bit: bool, n: nat, dbl: bool)
    ensures SlotsFrom(a + [bit], n, dbl)
         == SlotsFrom(a, n, dbl) + BitSlots(n + |SlotsFrom(a, n, dbl)|, bit, dbl)
  {
    SlotsFromConcat(a, [bit], n, dbl);
    var m := n + |SlotsFrom(a, n, dbl)|;
    var s := BitSlots(m, bit, dbl);
    SlotsFromFirst([bit], m, dbl);
    assert [bit][1..] == [];
    assert SlotsFrom([], m + |s|, dbl) == [];
    assert SlotsFrom([bit], m, dbl) == s;
  }

  /** No payload bit needs more than four slots (three, plus the one inserted before a 1 bit at slot 63). */
  lemma {:induction false} SlotsFromBound(bits: seq<bool>, n: nat, dbl: bool)
    ensures |SlotsFrom(bits, n, dbl)| <= 4 * |bits|
    decreases |bits|
  {
    if bits != [] {
      SlotsFromBound(bits[1..], n + |BitSlots(n, bits[0], dbl)|, dbl);
    }
  }

  /** The per-bit slot rule of `generateBits`, stated slot by slot: a bit has one active
      slot, two for a 1 bit; a passive slot follows unless the pattern has just been
      completed; a 0 bit on a double-passive chip gets a second passive slot under the
      same condition; a 1 bit due at slot 63 is preceded by one passive slot, so that
      both its active slots lie in one pattern. */
  lemma SlotRule(n: nat, bit: bool, dbl: bool)
    ensures var s := BitSlots(n, bit, dbl);
      var lead := if bit && n % PatternSlots == 63 then 1 else 0;
      var nAct := if bit then 2 else 1;
      var end := (n + lead + nAct) % PatternSlots;
      var nPass := if end == 0 then 0 else if !bit && dbl && end != 63 then 2 else 1;
      && |s| == lead + nAct + nPass
      && (forall i :: 0 <= i < |s| ==> (s[i] <==> lead <= i < lead + nAct))
      && (bit ==> (n + lead) % PatternSlots != 63)
  {
    BitSlotsAt(n, bit, dbl);
  }

  // ---------------------------------------------------------------------------
  // Padding of the last pattern

  /** n passive slots. */
  function Passives(n: nat): (s: seq<bool>)
    ensures |s| == n && forall i :: 0 <= i < n ==> !s[i]
  {
    seq(n, _ => false)
  }

  /** A partially filled last pattern is completed with passive slots; a slot count
      that is already a multiple of 64 is left alone. */
  function Pad(s: seq<bool>): (r: seq<bool>)
    ensures |r| % PatternSlots == 0 && |s| <= |r| < |s| + PatternSlots
    ensures r[..|s|] == s
    ensures |s| % PatternSlots == 0 ==> r == s
  {
    if |s| % PatternSlots == 0 then s else s + Passives(PatternSlots - |s| % PatternSlots)
  }

  // ---------------------------------------------------------------------------
  // Levels and durations

  /** Level each slot drives on the output: an active slot is high unless the chain is inverted. */
  function OutBits(s: seq<bool>, inverted: bool): (o: seq<bool>)
    ensures |o| == |s|
  {
    seq(|s|, i requires 0 <= i < |s| => s[i] != inverted)
  }

  /** Number of active slots. */
  function CountActive(s: seq<bool>): (n: nat)
    ensures n <= |s|
  {
    if s == [] then 0 else CountActive(s[..|s| - 1]) + (if s[|s| - 1] then 1 else 0)
  }

  /** Time to send a run of slots, accumulated slot by slot as `generateBit` does. */
  function Duration(s: seq<bool>, chip: ChipDescriptor): nat
  {
    if s == [] then 0
    else Duration(s[..|s| - 1], chip) + (if s[|s| - 1] then chip.t0ActiveNs else chip.tPassiveMinNs)
  }

  /** A run of slots lasts #active * T0Active + #passive * TPassive_min. */
  lemma {:induction false} DurationByCount(s: seq<bool>, chip: ChipDescriptor)
    ensures Duration(s, chip)
         == CountActive(s) * chip.t0ActiveNs + (|s| - CountActive(s)) * chip.tPassiveMinNs
  {
    if s != [] {
      DurationByCount(s[..|s| - 1], chip);
    }
  }

  /** Duration of two runs sent one after the other. */
  lemma {:induction false} DurationConcat(s: seq<bool>, t: seq<bool>, chip: ChipDescriptor)
    ensures Duration(s + t, chip) == Duration(s, chip) + Duration(t, chip)
    decreases |t|
  {
    if t == [] {
      assert s + t == s;
    } else {
      var u := t[..|t| - 1];
      assert (s + t)[..|s + t| - 1] == s + u;
      DurationConcat(s, u, chip);
    }
  }

  /** Padding adds TPassive_min per padded slot. */
  lemma PaddingDuration(s: seq<bool>, chip: ChipDescriptor)
    ensures Duration(Pad(s), chip) == Duration(s, chip) + (|Pad(s)| - |s|) * chip.tPassiveMinNs
  {
    var r := Pad(s);
    assert r == s + r[|s|..];
    DurationConcat(s, r[|s|..], chip);
    DurationByCount(r[|s|..], chip);
    NoActive(r[|s|..]);
  }

  lemma {:induction false} NoActive(s: seq<bool>)
    requires forall i :: 0 <= i < |s| ==> !s[i]
    ensures CountActive(s) == 0
  {
    if s != [] {
      NoActive(s[..|s| - 1]);
    }
  }

  // ---------------------------------------------------------------------------
  // Patterns

  /** The `PWMPattern_t` holding 64 slots. */
  function PatternOf(s: seq<bool>, inverted: bool, chip: ChipDescriptor): (pt: Pattern)
    requires |s| == PatternSlots
    ensures WellFormed(pt)
  {
    Pattern(OutBits(s[..WordSlots], inverted), OutBits(s[WordSlots..], inverted), Duration(s, chip))
  }

  /** The patterns of a slot sequence made of whole patterns, in order. */
  function Patterns(s: seq<bool>, inverted: bool, chip: ChipDescriptor): (ps: seq<Pattern>)
    requires |s| % PatternSlots == 0
    ensures |ps| == |s| / PatternSlots
  {
    if s == [] then []
    else Patterns(s[..|s| - PatternSlots], inverted, chip)
         + [PatternOf(s[|s| - PatternSlots..], inverted, chip)]
  }

  /** Adding a complete pattern's slots adds that pattern. */
  lemma PatternsSnoc(s: seq<bool>, t: seq<bool>, inverted: bool, chip: ChipDescriptor)
    requires |s| % PatternSlots == 0 && |t| == PatternSlots
    ensures Patterns(s + t, inverted, chip) == Patterns(s, inverted, chip) + [PatternOf(t, inverted, chip)]
  {
    assert (s + t)[..|s + t| - PatternSlots] == s;
    assert (s + t)[|s + t| - PatternSlots..] == t;
  }

  /** Pattern k is made of slots 64k .. 64k+63. */
  lemma {:induction false} PatternsIndex(s: seq<bool>, inverted: bool, chip: ChipDescriptor, k: nat)
    requires |s| % PatternSlots == 0 && k < |s| / PatternSlots
    ensures Patterns(s, inverted, chip)[k]
         == PatternOf(s[PatternSlots * k .. PatternSlots * k + PatternSlots], inverted, chip)
    decreases |s|
  {
    var n := |s| - PatternSlots;
    var m := |s| / PatternSlots;
    assert |s| == PatternSlots * m;
    var ps := Patterns(s, inverted, chip);
    var front := Patterns(s[..n], inverted, chip);
    assert ps == front + [PatternOf(s[n..], inverted, chip)];
    if k < m - 1 {
      assert ps[k] == front[k];
      PatternsIndex(s[..n], inverted, chip, k);
      assert s[..n][PatternSlots * k .. PatternSlots * k + PatternSlots]
          == s[PatternSlots * k .. PatternSlots * k + PatternSlots];
    } else {
      assert k == m - 1;
      assert PatternSlots * k == n;
      assert ps[k] == PatternOf(s[n..], inverted, chip);
      assert s[n..] == s[PatternSlots * k .. PatternSlots * k + PatternSlots];
    }
  }

  /** Pattern k holds slots 64k .. 64k+63: slot j of it is bit j of `data[0]`, and slot
      32 + j bit j of `data[1]`, at level (active != inverted); it lasts
      #active * T0Active + #passive * TPassive_min. */
  lemma PatternAt(s: seq<bool>, inverted: bool, chip: ChipDescriptor, k: nat)
    requires |s| % PatternSlots == 0 && k < |s| / PatternSlots
    ensures var pt := Patterns(s, inverted, chip)[k];
      var t := s[PatternSlots * k .. PatternSlots * k + PatternSlots];
      && WellFormed(pt)
      && (forall j :: 0 <= j < WordSlots ==> (pt.data0[j] <==> t[j] != inverted))
      && (forall j :: 0 <= j < WordSlots ==> (pt.data1[j] <==> t[WordSlots + j] != inverted))
      && pt.nanosecs == CountActive(t) * chip.t0ActiveNs + (PatternSlots - CountActive(t)) * chip.tPassiveMinNs
  {
    var t := s[PatternSlots * k .. PatternSlots * k + PatternSlots];
    PatternsIndex(s, inverted, chip, k);
    DurationByCount(t, chip);
  }

  /** The patterns the driver produces for a frame's payload bits: the slot stream
      padded to whole patterns, stored pattern by pattern. */
  function Encode(bits: seq<bool>, chip: ChipDescriptor, inverted: bool): seq<Pattern>
  {
    Patterns(Pad(Slots(bits, chip.t0PassiveDouble)), inverted, chip)
  }

  /** The encoder produces ceil(#slots / 64) patterns, at most one per 16 payload bits
      (rounded up), since no bit takes more than four slots. */
  lemma EncodeLength(bits: seq<bool>, chip: ChipDescriptor, inverted: bool)
    ensures |Encode(bits, chip, inverted)|
         == (|Slots(bits, chip.t0PassiveDouble)| + PatternSlots - 1) / PatternSlots
    ensures |Encode(bits, chip, inverted)| <= (4 * |bits| + PatternSlots - 1) / PatternSlots
  {
    var s := Slots(bits, chip.t0PassiveDouble);
    SlotsFromBound(bits, 0, chip.t0PassiveDouble);
    PadLength(|s|, |Pad(s)|);
    DivMono(|s| + PatternSlots - 1, 4 * |bits| + PatternSlots - 1);
  }

  lemma PadLength(n: nat, r: nat)
    requires r % PatternSlots == 0 && n <= r < n + PatternSlots && (n % PatternSlots == 0 ==> r == n)
    ensures r / PatternSlots == (n + PatternSlots - 1) / PatternSlots
  {
  }

  lemma DivMono(a: nat, b: nat)
    requires a <= b
    ensures a / PatternSlots <= b / PatternSlots
  {
  }

  /** No encoded pattern lasts zero time, so the sender never mistakes a loaded pattern
      for the end of the frame (`sendNextPattern` returns 0 only when nothing is left). */
  lemma EncodedDurationsPositive(s: seq<bool>, inverted: bool, chip: ChipDescriptor, k: nat)
    requires |s| % PatternSlots == 0 && k < |s| / PatternSlots
    requires chip.t0ActiveNs > 0 && chip.tPassiveMinNs > 0
    ensures Patterns(s, inverted, chip)[k].nanosecs > 0
  {
    PatternAt(s, inverted, chip, k);
    var t := s[PatternSlots * k .. PatternSlots * k + PatternSlots];
    var a := CountActive(t);
    if a > 0 {
      MulPos(a, chip.t0ActiveNs);
    } else {
      MulPos(PatternSlots - a, chip.tPassiveMinNs);
    }
  }

  lemma MulPos(a: nat, b: nat)
    requires a > 0 && b > 0
    ensures a * b > 0
  {
  }

  // ---------------------------------------------------------------------------
  // Reading the patterns back

  /** The 64 slots a pattern drives, slot 0 first, read back as active or passive. */
  function UnpackPattern(pt: Pattern, inverted: bool): (s: seq<bool>)
    ensures |s| == |pt.data0| + |pt.data1|
  {
    OutBits(pt.data0 + pt.data1, inverted)
  }

  /** The slots of a pattern sequence, in sending order. */
  function Unpack(ps: seq<Pattern>, inverted: bool): seq<bool>
  {
    if ps == [] then [] else Unpack(ps[..|ps| - 1], inverted) + UnpackPattern(ps[|ps| - 1], inverted)
  }

  /** A pattern drives the slots it was built from. */
  lemma UnpackPatternOf(t: seq<bool>, inverted: bool, chip: ChipDescriptor)
    requires |t| == PatternSlots
    ensures UnpackPattern(PatternOf(t, inverted, chip), inverted) == t
  {
    var pt := PatternOf(t, inverted, chip);
    var u := UnpackPattern(pt, inverted);
    forall i | 0 <= i < PatternSlots
      ensures u[i] == t[i]
    {
      if i < WordSlots {
        assert (pt.data0 + pt.data1)[i] == pt.data0[i];
      } else {
        assert (pt.data0 + pt.data1)[i] == pt.data1[i - WordSlots];
      }
    }
  }

  /** Unpacking one more pattern appends its slots. */
  lemma UnpackSnoc(ps: seq<Pattern>, pt: Pattern, inverted: bool)
    ensures Unpack(ps + [pt], inverted) == Unpack(ps, inverted) + UnpackPattern(pt, inverted)
  {
    assert (ps + [pt])[..|ps|] == ps;
  }

  /** Unpacking the patterns of a slot sequence gives the slot sequence back. */
  lemma {:induction false} UnpackPatterns(s: seq<bool>, inverted: bool, chip: ChipDescriptor)
    requires |s| % PatternSlots == 0
    ensures Unpack(Patterns(s, inverted, chip), inverted) == s
    decreases |s|
  {
    if s != [] {
      var n := |s| - PatternSlots;
      var front, t := s[..n], s[n..];
      assert s == front + t;
      PatternsSnoc(front, t, inverted, chip);
      UnpackSnoc(Patterns(front, inverted, chip), PatternOf(t, inverted, chip), inverted);
      UnpackPatterns(front, inverted, chip);
      UnpackPatternOf(t, inverted, chip);
    }
  }

  // ---------------------------------------------------------------------------
  // Decoding, as the LED chain does it

  /** Bits an LED chain reads from a slot stream whose first slot is the n-th of the
      frame: a run of two active slots inside one pattern is a 1 bit, a single active
      slot a 0 bit; passive slots and the pause between two patterns separate bits. */
  function DecodeFrom(s: seq<bool>, n: nat): seq<bool>
    decreases |s|
  {
    if s == [] then []
    else if !s[0] then DecodeFrom(s[1..], n + 1)
    else if |s| >= 2 && s[1] && n % PatternSlots != PatternSlots - 1 then [true] + DecodeFrom(s[2..], n + 2)
    else [false] + DecodeFrom(s[1..], n + 1)
  }

  /** The bits a whole frame's slot stream carries. */
  function Decode(s: seq<bool>): seq<bool>
  {
    DecodeFrom(s, 0)
  }

  /** Decoding reads back the bit whose slots come first. */
  lemma DecodeBit(n: nat, bit: bool, dbl: bool, rest: seq<bool>)
    ensures DecodeFrom(BitSlots(n, bit, dbl) + rest, n)
         == [bit] + DecodeFrom(rest, n + |BitSlots(n, bit, dbl)|)
  {
    var s := BitSlots(n, bit, dbl);
    var t := s + rest;
    BitSlotsAt(n, bit, dbl);
    if bit && n % PatternSlots == 63 {
      assert s == [false, true, true, false];
      assert t[1..] == [true, true, false] + rest;
      assert DecodeFrom(t, n) == DecodeFrom(t[1..], n + 1);
      assert t[1..][2..] == [false] + rest;
      assert DecodeFrom(t[1..], n + 1) == [true] + DecodeFrom([false] + rest, n + 3);
      assert ([false] + rest)[1..] == rest;
      assert DecodeFrom([false] + rest, n + 3) == DecodeFrom(rest, n + 4);
    } else if bit && n % PatternSlots == 62 {
      assert s == [true, true];
      assert t[2..] == rest;
    } else if bit {
      assert s == [true, true, false];
      assert t[2..] == [false] + rest;
      assert ([false] + rest)[1..] == rest;
    } else if n % PatternSlots == 63 {
      assert s == [true];
      assert t[1..] == rest;
    } else if |s| == 3 {
      assert s == [true, false, false];
      assert t[1..] == [false, false] + rest;
      assert DecodeFrom(t, n) == [false] + DecodeFrom(t[1..], n + 1);
      assert t[1..][1..] == [false] + rest;
      assert DecodeFrom(t[1..], n + 1) == DecodeFrom([false] + rest, n + 2);
      assert ([false] + rest)[1..] == rest;
      assert DecodeFrom([false] + rest, n + 2) == DecodeFrom(rest, n + 3);
    } else {
      assert s == [true, false];
      assert t[1..] == [false] + rest;
      assert ([false] + rest)[1..] == rest;
    }
  }

  /** Decoding the slots of a bit sequence gives the bits back. */
  lemma {:induction false} DecodeSlotsFrom(bits: seq<bool>, n: nat, dbl: bool)
    ensures DecodeFrom(SlotsFrom(bits, n, dbl), n) == bits
    decreases |bits|
  {
    if bits != [] {
      var s := BitSlots(n, bits[0], dbl);
      assert SlotsFrom(bits, n, dbl) == s + SlotsFrom(bits[1..], n + |s|, dbl);
      DecodeBit(n, bits[0], dbl, SlotsFrom(bits[1..], n + |s|, dbl));
      DecodeSlotsFrom(bits[1..], n + |s|, dbl);
      assert bits == [bits[0]] + bits[1..];
    }
  }

  /** Passive slots carry no bits. */
  lemma {:induction false} DecodePassives(k: nat, n: nat)
    ensures DecodeFrom(Passives(k), n) == []
    decreases k
  {
    if k > 0 {
      assert Passives(k)[1..] == Passives(k - 1);
      DecodePassives(k - 1, n + 1);
    }
  }

  /** Padding a stream with passive slots adds no bits. */
  lemma {:induction false} DecodePadded(s: seq<bool>, k: nat, n: nat)
    ensures DecodeFrom(s + Passives(k), n) == DecodeFrom(s, n)
    decreases |s|
  {
    var t := s + Passives(k);
    if s == [] {
      assert t == Passives(k);
      DecodePassives(k, n);
    } else if !s[0] {
      assert t[1..] == s[1..] + Passives(k);
      DecodePadded(s[1..], k, n + 1);
    } else if |s| >= 2 && s[1] && n % PatternSlots != PatternSlots - 1 {
      assert t[2..] == s[2..] + Passives(k);
      DecodePadded(s[2..], k, n + 2);
    } else {
      assert t[1..] == s[1..] + Passives(k);
      DecodePadded(s[1..], k, n + 1);
    }
  }

  /** Round trip: the LED chain reads back exactly the payload bits from the patterns
      the encoder produced, at either output polarity. */
  lemma EncodeRoundTrip(bits: seq<bool>, chip: ChipDescriptor, inverted: bool)
    ensures Decode(Unpack(Encode(bits, chip, inverted), inverted)) == bits
  {
    var s := Slots(bits, chip.t0PassiveDouble);
    UnpackPatterns(Pad(s), inverted, chip);
    if |s| % PatternSlots != 0 {
      DecodePadded(s, PatternSlots - |s| % PatternSlots, 0);
    }
    DecodeSlotsFrom(bits, 0, chip.t0PassiveDouble);
  }

  // ---------------------------------------------------------------------------
  // Further consequences of the slot rule

  /** The two active slots of every 1 bit lie in one pattern: the first of them is never
      the last slot of a pattern. */
  lemma OneBitInOnePattern(bits: seq<bool>, i: nat, dbl: bool)
    requires i < |bits| && bits[i]
    ensures var q := |Slots(bits[..i], dbl)|;
      var a := if q % PatternSlots == 63 then q + 1 else q;
      && a + 1 < |Slots(bits, dbl)|
      && Slots(bits, dbl)[a] && Slots(bits, dbl)[a + 1]
      && a % PatternSlots != PatternSlots - 1
  {
    assert bits == bits[..i] + bits[i..];
    SlotsFromConcat(bits[..i], bits[i..], 0, dbl);
    var q := |Slots(bits[..i], dbl)|;
    var b := BitSlots(q, true, dbl);
    BitSlotsAt(q, true, dbl);
    assert bits[i..] == [bits[i]] + bits[i + 1..];
    assert SlotsFrom(bits[i..], q, dbl)[..|b|] == b;
  }

  /** A payload of 0 bits on a chip without doubled passive time is a plain alternation
      active, passive: two slots per bit, 16 per byte. */
  lemma {:induction false} ZeroBitsAlternate(k: nat, n: nat)
    requires n % 2 == 0
    ensures SlotsFrom(seq(k, _ => false), n, false) == seq(2 * k, i => i % 2 == 0)
    decreases k
  {
    if k > 0 {
      var z := seq(k, _ => false);
      assert z[1..] == seq(k - 1, _ => false);
      BitSlotsAt(n, false, false);
      assert BitSlots(n, false, false) == [true, false];
      ZeroBitsAlternate(k - 1, n + 2);
      assert seq(2 * k, i => i % 2 == 0) == [true, false] + seq(2 * (k - 1), i => i % 2 == 0);
    }
  }

  /** On a chip with doubled passive time, a 0 bit that does not end a pattern takes three
      slots: one active, two passive. */
  lemma ZeroBitDoublePassive(n: nat)
    requires n % PatternSlots < 62
    ensures BitSlots(n, false, true) == [true, false, false]
  {
    BitSlotsAt(n, false, true);
  }
}
