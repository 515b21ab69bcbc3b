// The LED chip timing table, the LED layout (byte order) table and the
// legacy predefined chip/layout pairs of p44-ledchain.c, with the lookups
// from the numeric identifiers used by the module parameter and the frame header.
module LedTypes {
  import opened Common

  /** Chip families (`LedChip_t` without `ledchip_none`). */
  datatype LedChip = WS2811 | WS2812 | WS2813 | WS2815 | P9823 | SK6812

  /** Layouts (`LedLayout_t` without `ledlayout_none`). */
  datatype LedLayout = RGB | GRB | RGBW | GRBW

  /** `LedChipDescriptor_t`: timing of one chip family, in nanoseconds (its name, which
      only the status text shows, is left out). */
  datatype ChipDescriptor = ChipDescriptor(
    t0ActiveNs: nat,       // active time of a 0 bit; a 1 bit is active twice as long
    tPassiveMinNs: nat,    // minimal passive time after an active phase
    t0PassiveDouble: bool, // a 0 bit needs twice the passive time
    tPassiveMaxNs: nat,    // longest passive time before the chain resets
    tResetNs: nat)         // passive time that latches a frame

  /** `LedLayoutDescriptor_t`: channels per LED and the input offset of each output byte
      (its name, which only the status text shows, is left out). */
  datatype LayoutDescriptor = LayoutDescriptor(channels: nat, fetchIdx: seq<nat>)

  /** The PWM unit's time resolution; the table values are multiples of it. */
  const PwmTickNs: nat := 25

  /** Number of entries of `LedChip_t` including `ledchip_none` (`num_ledchips`). */
  const NumLedChips: nat := 7
  /** Number of entries of `LedLayout_t` including `ledlayout_none` (`num_ledlayouts`). */
  const NumLedLayouts: nat := 5
  /** Number of legacy predefined types (`num_predef_ledtypes`). */
  const NumPredefLedTypes: nat := 6

  /** Entry of `ledChipDescriptors` for a chip. Every entry is a valid profile
      whose register values `/25` are exact. */
  function ChipDesc(c: LedChip): (d: ChipDescriptor)
    ensures d.tPassiveMaxNs >= d.tPassiveMinNs > 0 && d.t0ActiveNs > 0
    ensures d.t0ActiveNs % PwmTickNs == 0 && d.tPassiveMinNs % PwmTickNs == 0
    ensures d.tResetNs > d.tPassiveMaxNs
  {
    match c
    case WS2811 => ChipDescriptor(500, 1200, true, 10000, 50000)
    case WS2812 => ChipDescriptor(350, 900, false, 10000, 50000)
    case WS2813 => ChipDescriptor(375, 650, false, 40000, 300000)
    case WS2815 => ChipDescriptor(375, 650, false, 35000, 300000)
    case P9823 => ChipDescriptor(425, 1000, false, 10000, 50000)
    case SK6812 => ChipDescriptor(300, 900, false, 15000, 80000)
  }

  /** Entry of `ledLayoutDescriptors` for a layout; `fetchIdx` has the four
      entries of the C array, unused ones zero. */
  function LayoutDesc(l: LedLayout): (d: LayoutDescriptor)
    ensures d.channels == 3 || d.channels == 4
    ensures |d.fetchIdx| == 4
    ensures IsPermutationPrefix(d.fetchIdx, d.channels)
  {
    match l
    case RGB => LayoutDescriptor(3, [0, 1, 2, 0])
    case GRB => LayoutDescriptor(3, [1, 0, 2, 0])
    case RGBW => LayoutDescriptor(4, [0, 1, 2, 3])
    case GRBW => LayoutDescriptor(4, [1, 0, 2, 3])
  }

  /** The first n entries of f are exactly 0..n-1, each once: every byte of an
      LED's record is fetched exactly once. */
  ghost predicate IsPermutationPrefix(f: seq<nat>, n: nat)
  {
    n <= |f| &&
    (forall i :: 0 <= i < n ==> f[i] < n) &&
    (forall i, j :: 0 <= i < j < n ==> f[i] != f[j])
  }

  /** Numeric value of a chip in `LedChip_t`. */
  function ChipId(c: LedChip): (id: nat)
    ensures 1 <= id < NumLedChips
  {
    match c
    case WS2811 => 1
    case WS2812 => 2
    case WS2813 => 3
    case WS2815 => 4
    case P9823 => 5
    case SK6812 => 6
  }

  /** Numeric value of a layout in `LedLayout_t`. */
  function LayoutId(l: LedLayout): (id: nat)
    ensures 1 <= id < NumLedLayouts
  {
    match l
    case RGB => 1
    case GRB => 2
    case RGBW => 3
    case GRBW => 4
  }

  /** Chip for a numeric identifier; 0 (`ledchip_none`) and values from
      `num_ledchips` on are not chips. */
  function ChipFromId(id: int): (r: Option<LedChip>)
    ensures r.Some? <==> 1 <= id < NumLedChips
    ensures r.Some? ==> ChipId(r.value) == id
  {
    if id == 1 then Some(WS2811)
    else if id == 2 then Some(WS2812)
    else if id == 3 then Some(WS2813)
    else if id == 4 then Some(WS2815)
    else if id == 5 then Some(P9823)
    else if id == 6 then Some(SK6812)
    else None
  }

  /** Layout for a numeric identifier; 0 (`ledlayout_none`) and values from
      `num_ledlayouts` on are not layouts. */
  function LayoutFromId(id: int): (r: Option<LedLayout>)
    ensures r.Some? <==> 1 <= id < NumLedLayouts
    ensures r.Some? ==> LayoutId(r.value) == id
  {
    if id == 1 then Some(RGB)
    else if id == 2 then Some(GRB)
    else if id == 3 then Some(RGBW)
    else if id == 4 then Some(GRBW)
    else None
  }

  /** Every chip and layout is found again from its identifier. */
  lemma IdsRoundTrip(c: LedChip, l: LedLayout)
    ensures ChipFromId(ChipId(c)) == Some(c)
    ensures LayoutFromId(LayoutId(l)) == Some(l)
  {
  }

  /** `predefLedTypeDescriptors`: the legacy type indices 0..5. */
  function PredefLedType(t: int): (r: Option<(LedChip, LedLayout)>)
    ensures r.Some? <==> 0 <= t < NumPredefLedTypes
  {
    if t == 0 then Some((WS2811, RGB))
    else if t == 1 then Some((WS2812, GRB))
    else if t == 2 then Some((WS2813, GRB))
    else if t == 3 then Some((P9823, RGB))
    else if t == 4 then Some((SK6812, GRBW))
    else if t == 5 then Some((WS2815, RGB))
    else None
  }
}
