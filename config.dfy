// Per-channel configuration of p44-ledchain: validation of the module
// parameters in `p44ledchain_add_device` and the size of the pattern buffer
// allocated for the channel.
module Config {
  import opened Common
  import opened LedTypes
  import opened Bits
  import opened BitPattern

  const MaxLeds: nat := 2048            // LEDCHAIN_MAX_LEDS
  const DefaultMaxRetries: int := 3     // DEFAULT_MAX_RETRIES
  const MinMaxTPassiveNs: int := 5000   // MIN_MAXTPASSIVE_NS
  /** Starting value of the shortest update duration statistic: ten seconds, in microseconds. */
  const InitialMinUpdateUs: nat := 10000000

  // Indices into a channel's parameter array.
  const ParamInverted: nat := 0
  const ParamNumLeds: nat := 1
  const ParamRequiredCount: nat := 2
  const ParamLedType: nat := 2
  const ParamMaxRetries: nat := 3
  const ParamMaxTPassive: nat := 4

  /** LED type parameter value selecting chip and layout per frame (`ledtype_variable`). */
  const LedTypeVariable: int := 0xFF
  /** Channel count assumed for buffer sizing when the layout is chosen per frame. */
  const VariableChannels: nat := 4
  /** `sizeof(PWMPattern_t)`: three `u32`. */
  const PatternBytes: nat := 12

  /** Chip and layout of a channel: fixed at creation, or taken from each frame's header. */
  datatype LedSelection = Fixed(chip: LedChip, layout: LedLayout) | Variable

  datatype ConfigError =
    | NotEnoughParams  // fewer than the two required parameters
    | BadLedCount      // LED count outside 1..2048
    | BadLayout        // direct type whose high byte is no layout
    | BadChip          // direct type whose low byte is no chip
    | BadLedType       // legacy type neither 0..5 nor 255
    | BadRetries       // negative retry count

  /** The configuration a channel is created with. `maxTPassiveNs` 0 means the
      chip's own maximum; `lowPassiveWarning` is the warning for a value below 5000 ns. */
  datatype DeviceConfig = DeviceConfig(
    inverted: bool,
    numLeds: nat,
    selection: LedSelection,
    maxSendRetries: int,
    maxTPassiveNs: int,
    lowPassiveWarning: bool,
    outBufSize: nat)

  /** Conversion to `u16` as C performs it. */
  function ToU16(x: int): (r: nat)
    ensures r < 0x1_0000 && (r - x) % 0x1_0000 == 0
    ensures 0 <= x < 0x1_0000 ==> r == x
  {
    x % 0x1_0000
  }

  /** The `u16` LED type parameter: with a non-zero high byte, high byte = layout and
      low byte = chip; otherwise 255 for per-frame selection or a legacy index 0..5. */
  function DecodeLedType(ltyp: nat): (r: Result<LedSelection, ConfigError>)
    requires ltyp < 0x1_0000
    ensures ltyp >= 0x100 ==>
      (r.Ok? <==> ltyp / 0x100 < NumLedLayouts && 1 <= ltyp % 0x100 < NumLedChips)
    ensures ltyp >= 0x100 && r.Ok? ==>
      r.value.Fixed? && LayoutId(r.value.layout) == ltyp / 0x100 && ChipId(r.value.chip) == ltyp % 0x100
    ensures ltyp >= 0x100 && r.Err? ==>
      r.error == if ltyp / 0x100 >= NumLedLayouts then BadLayout else BadChip
    ensures ltyp < 0x100 ==> (r == Ok(Variable) <==> ltyp == LedTypeVariable)
    ensures ltyp < 0x100 && ltyp != LedTypeVariable ==>
      (r.Ok? <==> ltyp < NumPredefLedTypes) && (r.Err? ==> r.error == BadLedType)
    ensures ltyp < NumPredefLedTypes ==>
      r == Ok(Fixed(PredefLedType(ltyp).value.0, PredefLedType(ltyp).value.1))
  {
    if ltyp >= 0x100 then
      var layout := LayoutFromId(ltyp / 0x100);
      var chip := ChipFromId(ltyp % 0x100);
      if layout.None? then Err(BadLayout)
      else if chip.None? then Err(BadChip)
      else Ok(Fixed(chip.value, layout.value))
    else if ltyp == LedTypeVariable then Ok(Variable)
    else
      match PredefLedType(ltyp)
      case None => Err(BadLedType)
      case Some(p) => Ok(Fixed(p.0, p.1))
  }

  /** The direct LED type parameter value for a selection: layout in the high byte, chip
      in the low byte, or 255 for per-frame selection. */
  function LedTypeParam(sel: LedSelection): (t: nat)
    ensures t < 0x1_0000
  {
    match sel
    case Variable => LedTypeVariable
    case Fixed(chip, layout) => LayoutId(layout) * 0x100 + ChipId(chip)
  }

  /** Every selection can be configured with the direct parameter value, and decoding
      that value gives it back. */
  lemma LedTypeRoundTrip(sel: LedSelection)
    ensures DecodeLedType(LedTypeParam(sel)) == Ok(sel)
  {
    if sel.Fixed? {
      IdsRoundTrip(sel.chip, sel.layout);
      var t := LedTypeParam(sel);
      assert t / 0x100 == LayoutId(sel.layout) && t % 0x100 == ChipId(sel.chip);
    }
  }

  /** Channels per LED that the buffer is sized for. */
  function SizingChannels(sel: LedSelection): (ch: nat)
    ensures ch == 3 || ch == 4
    ensures sel.Variable? ==> ch == VariableChannels
  {
    if sel.Fixed? then LayoutDesc(sel.layout).channels else VariableChannels
  }

  /** `outBufSize` as the driver computes it, in bytes: LED bits times three slots,
      divided by 64 slots per pattern (rounding down), times the pattern size. */
  function OutBufSizeAsWritten(numLeds: nat, channels: nat): (bytes: nat)
    ensures bytes % PatternBytes == 0
    ensures bytes / PatternBytes * PatternSlots <= numLeds * channels * 8 * 3
  {
    var slots := numLeds * channels * 8 * 3;
    var patterns := slots / PatternSlots;
    assert patterns * PatternSlots <= slots;
    assert patterns * PatternBytes / PatternBytes == patterns;
    patterns * PatternBytes
  }

  /** Patterns a channel must be able to hold: four slots per LED bit (a 1 bit due in
      the last slot of a pattern takes four), rounded up to whole patterns. */
  function OutBufPatterns(numLeds: nat, channels: nat): nat
  {
    (numLeds * channels * 8 * 4 + PatternSlots - 1) / PatternSlots
  }

  /** `p44ledchain_add_device`: the checks, in the driver's order, on a channel's
      parameters, and the configuration they produce. */
  function AddDevice(params: seq<int>): (r: Result<DeviceConfig, ConfigError>)
    ensures |params| < ParamRequiredCount ==> r == Err(NotEnoughParams)
    ensures |params| >= ParamRequiredCount && !(1 <= params[ParamNumLeds] <= MaxLeds) ==> r == Err(BadLedCount)
    ensures r.Ok? <==>
      && |params| >= ParamRequiredCount
      && 1 <= params[ParamNumLeds] <= MaxLeds
      && (|params| > ParamLedType ==> DecodeLedType(ToU16(params[ParamLedType])).Ok?)
      && (|params| > ParamMaxRetries ==> params[ParamMaxRetries] >= 0)
    ensures r.Ok? ==>
      && r.value.inverted == (params[ParamInverted] != 0)
      && r.value.numLeds == params[ParamNumLeds]
      && r.value.selection == (if |params| > ParamLedType then DecodeLedType(ToU16(params[ParamLedType])).value else Variable)
      && r.value.maxSendRetries == (if |params| > ParamMaxRetries then params[ParamMaxRetries] else DefaultMaxRetries)
      && r.value.maxSendRetries >= 0
      && r.value.maxTPassiveNs == (if |params| > ParamMaxTPassive then params[ParamMaxTPassive] else 0)
      && r.value.lowPassiveWarning == (|params| > ParamMaxTPassive && params[ParamMaxTPassive] < MinMaxTPassiveNs)
      && r.value.outBufSize == OutBufSizeAsWritten(r.value.numLeds, SizingChannels(r.value.selection))
  {
    if |params| < ParamRequiredCount then Err(NotEnoughParams)
    else if !(1 <= params[ParamNumLeds] <= MaxLeds) then Err(BadLedCount)
    else
      var sel := if |params| > ParamLedType then DecodeLedType(ToU16(params[ParamLedType])) else Ok(Variable);
      if sel.Err? then Err(sel.error)
      else if |params| > ParamMaxRetries && params[ParamMaxRetries] < 0 then Err(BadRetries)
      else
        var retries := if |params| > ParamMaxRetries then params[ParamMaxRetries] else DefaultMaxRetries;
        var passive := if |params| > ParamMaxTPassive then params[ParamMaxTPassive] else 0;
        var numLeds := params[ParamNumLeds];
        Ok(DeviceConfig(params[ParamInverted] != 0, numLeds, sel.value, retries, passive,
                        passive < MinMaxTPassiveNs && |params| > ParamMaxTPassive,
                        OutBufSizeAsWritten(numLeds, SizingChannels(sel.value))))
  }

  /** With only the two required parameters the channel takes chip and layout from each
      frame, with three retries and the chip's own maximum passive time. */
  lemma TwoParamsMeanVariable(inverted: int, numLeds: int)
    requires 1 <= numLeds <= MaxLeds
    ensures var r := AddDevice([inverted, numLeds]);
      r.Ok? && r.value.selection == Variable && r.value.maxSendRetries == DefaultMaxRetries
      && r.value.maxTPassiveNs == 0 && !r.value.lowPassiveWarning
  {
  }

  /** The parameters that configure a given selection are accepted and configure it. */
  lemma AddDeviceAcceptsSelection(inverted: int, numLeds: int, sel: LedSelection, retries: int, passive: int)
    requires 1 <= numLeds <= MaxLeds && retries >= 0
    ensures var r := AddDevice([inverted, numLeds, LedTypeParam(sel), retries, passive]);
      r.Ok? && r.value.selection == sel && r.value.maxSendRetries == retries && r.value.maxTPassiveNs == passive
  {
    LedTypeRoundTrip(sel);
  }

  // ---------------------------------------------------------------------------
  // Buffer capacity

  /** n payload bits that are all 1. */
  function Ones(n: nat): (s: seq<bool>)
    ensures |s| == n && forall i :: 0 <= i < n ==> s[i]
  {
    seq(n, _ => true)
  }

  /** A run of 1 bits that ends before the last slot of a pattern takes three slots per bit. */
  lemma {:induction false} OnesSlots(k: nat, n: nat, dbl: bool)
    requires n % PatternSlots + 3 * k <= PatternSlots - 1
    ensures |SlotsFrom(Ones(k), n, dbl)| == 3 * k
    decreases k
  {
    if k > 0 {
      assert Ones(k)[1..] == Ones(k - 1);
      BitSlotsAt(n, true, dbl);
      assert |BitSlots(n, true, dbl)| == 3;
      assert (n + 3) % PatternSlots == n % PatternSlots + 3;
      OnesSlots(k - 1, n + 3, dbl);
    }
  }

  /** A run of k one bits that starts in the last slot of a pattern takes a passive
      slot and then three slots per bit, as long as it ends before the next pattern's
      last slot. */
  lemma OnesAfterBoundary(k: nat, n: nat, dbl: bool)
    requires 1 <= k <= 21 && n % PatternSlots == PatternSlots - 1
    ensures |SlotsFrom(Ones(k), n, dbl)| == 3 * k + 1
  {
    var a := Ones(k);
    assert a[0] && a[1..] == Ones(k - 1);
    SlotsFromFirst(a, n, dbl);
    BitSlotsAt(n, true, dbl);
    assert |BitSlots(n, true, dbl)| == 4;
    var q := (n + 1) / PatternSlots;
    assert n + 4 == PatternSlots * q + 3;
    assert (n + 4) % PatternSlots == 3;
    OnesSlots(k - 1, n + 4, dbl);
  }

  /** A frame of m runs of 21 one bits fills m patterns but for the last slot. */
  lemma {:induction false} OnesBlocks(m: nat, dbl: bool)
    requires m >= 1
    ensures |Slots(Ones(21 * m), dbl)| == PatternSlots * m - 1
  {
    if m == 1 {
      OnesSlots(21, 0, dbl);
    } else {
      var k := 21;
      OnesBlocks(m - 1, dbl);
      var a, b := Ones(21 * (m - 1)), Ones(k);
      assert Ones(21 * m) == a + b;
      SlotsFromConcat(a, b, 0, dbl);
      var n := PatternSlots * (m - 1) - 1;
      assert n % PatternSlots == PatternSlots - 1 by {
        assert n == PatternSlots * (m - 2) + (PatternSlots - 1);
      }
      OnesAfterBoundary(k, n, dbl);
    }
  }

  /** The bits of the byte 0xFF. */
  lemma ByteFFBits()
    ensures ByteBits(0xFF) == Ones(8)
  {
    forall k: bv8 | k < 8 ensures BitAt(0xFF, k) {
    }
    assert MsbBits(0xFF, 0) == [];
    assert MsbBits(0xFF, 1) == Ones(1);
    assert MsbBits(0xFF, 2) == Ones(2);
    assert MsbBits(0xFF, 3) == Ones(3);
    assert MsbBits(0xFF, 4) == Ones(4);
    assert MsbBits(0xFF, 5) == Ones(5);
    assert MsbBits(0xFF, 6) == Ones(6);
    assert MsbBits(0xFF, 7) == Ones(7);
    assert MsbBits(0xFF, 8) == Ones(8);
  }

  /** A full-brightness three-channel LED (bytes FF FF FF) is 24 one bits. */
  lemma FullWhiteBits()
    ensures BytesBits([0xFF, 0xFF, 0xFF]) == Ones(24)
  {
    ByteFFBits();
    var b3: seq<bv8> := [0xFF, 0xFF, 0xFF];
    var b2: seq<bv8> := [0xFF, 0xFF];
    var b1: seq<bv8> := [0xFF];
    assert b3[..2] == b2 && b2[..1] == b1 && b1[..0] == [];
    assert BytesBits(b3) == Ones(8) + Ones(8) + Ones(8);
  }

  /** 24 one bits take more than one pattern: 21 bits fill slots 0..62, and the 22nd is
      preceded by a passive slot 63 and continues in the next pattern. */
  lemma OnesOverflowPattern(dbl: bool)
    ensures |Slots(Ones(24), dbl)| > PatternSlots
  {
    var first, rest := Ones(21), Ones(3);
    assert Ones(24) == first + rest;
    SlotsFromConcat(first, rest, 0, dbl);
    OnesSlots(21, 0, dbl);
    assert rest[0];
    OneAtLastSlot(rest, 63, dbl);
  }

  /** A 1 bit due at the last slot of a pattern takes four slots. */
  lemma OneAtLastSlot(bits: seq<bool>, n: nat, dbl: bool)
    requires bits != [] && bits[0] && n % PatternSlots == PatternSlots - 1
    ensures |SlotsFrom(bits, n, dbl)| >= 4
  {
    BitSlotsAt(n, true, dbl);
    assert |BitSlots(n, true, dbl)| == 4;
  }

  /** One three-channel LED at full brightness needs two patterns, while the buffer the
      driver allocates for a one-LED RGB channel holds 12 bytes: one pattern. The slots
      of the LED's bits run past the first pattern, so the bit generator itself writes
      into the second. */
  lemma BufferTooSmall(chip: ChipDescriptor, inverted: bool)
    ensures OutBufSizeAsWritten(1, 3) / PatternBytes == 1
    ensures |Slots(BytesBits([0xFF, 0xFF, 0xFF]), chip.t0PassiveDouble)| > PatternSlots
    ensures |Encode(BytesBits([0xFF, 0xFF, 0xFF]), chip, inverted)| == 2
  {
    FullWhiteBits();
    OnesOverflowPattern(chip.t0PassiveDouble);
    EncodeLength(Ones(24), chip, inverted);
  }

  /** The corrected capacity holds the patterns of every frame: at most `numLeds` LEDs
      of `channels` bytes each. */
  lemma EncodeFits(bits: seq<bool>, numLeds: nat, channels: nat, chip: ChipDescriptor, inverted: bool)
    requires |bits| <= numLeds * channels * 8
    ensures |Encode(bits, chip, inverted)| <= OutBufPatterns(numLeds, channels)
  {
    EncodeLength(bits, chip, inverted);
    DivMono(4 * |bits| + PatternSlots - 1, numLeds * channels * 8 * 4 + PatternSlots - 1);
  }
}
