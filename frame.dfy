// What `update_leds` reads from a frame written to a channel: the in-band
// header of variable-type mode, the number of LEDs the payload covers, and
// the reordering of each LED's bytes into the chip's channel order.
module Frame {
  import opened Common
  import opened LedTypes
  import opened Bits

  /** Header length of the version 6 header: layout, chip, two bytes of maximum
      passive time in microseconds, retries. */
  const MinHeaderLength: int := 5

  /** The fields of a variable-type header. `retries` is byte 5 read as a signed
      `char`; 0 keeps the channel's retry budget. `maxTPassiveNs` 0 selects the chip's
      own maximum. The payload starts at `payloadStart`. */
  datatype Header = Header(layout: LedLayout, chip: LedChip, maxTPassiveNs: nat, retries: int, payloadStart: nat)

  datatype FrameError =
    | BadHeaderLength  // empty frame, length byte below 5, or frame shorter than the header
    | BadLedType       // layout or chip byte that names no layout or chip

  /** The first byte, the header length, as the signed `char` the driver reads. */
  function HeaderLength(buff: seq<bv8>): int
    requires |buff| > 0
  {
    SignedChar(buff[0])
  }

  /** A frame whose header length is acceptable and which holds the whole header. */
  predicate HeaderFits(buff: seq<bv8>)
  {
    |buff| > 0 && HeaderLength(buff) >= MinHeaderLength && |buff| >= HeaderLength(buff) + 1
  }

  /** The header of a frame in variable-type mode. A frame of length 0 is rejected: the
      driver reads no length byte then and decides on an uninitialised value. */
  function DecodeHeader(buff: seq<bv8>): (r: Result<Header, FrameError>)
    ensures !HeaderFits(buff) <==> r == Err(BadHeaderLength)
    ensures HeaderFits(buff) ==>
      (r.Ok? <==> LayoutFromId(SignedChar(buff[1])).Some? && ChipFromId(SignedChar(buff[2])).Some?)
    ensures r.Ok? ==>
      && LayoutId(r.value.layout) == buff[1] as int
      && ChipId(r.value.chip) == buff[2] as int
      && r.value.maxTPassiveNs == (buff[3] as int * 0x100 + buff[4] as int) * 1000
      && r.value.retries == SignedChar(buff[5])
      && r.value.payloadStart == HeaderLength(buff) + 1 <= |buff|
  {
    if !HeaderFits(buff) then Err(BadHeaderLength)
    else
      var layout := LayoutFromId(SignedChar(buff[1]));
      var chip := ChipFromId(SignedChar(buff[2]));
      if layout.None? || chip.None? then Err(BadLedType)
      else
        Ok(Header(layout.value, chip.value, (buff[3] as int * 0x100 + buff[4] as int) * 1000,
                  SignedChar(buff[5]), HeaderLength(buff) + 1))
  }

  /** The byte with the given signed `char` value. */
  function CharByte(c: int): (b: bv8)
    requires -128 <= c < 128
    ensures SignedChar(b) == c
  {
    if c >= 0 then ByteOf(c) else ByteOf(c + 256)
  }

  /** The six-byte header a client writes before the payload. */
  function HeaderBytes(layout: LedLayout, chip: LedChip, maxPassiveUs: nat, retries: int): (h: seq<bv8>)
    requires maxPassiveUs < 0x1_0000 && -128 <= retries < 128
    ensures |h| == 6
  {
    [5, ByteOf(LayoutId(layout)), ByteOf(ChipId(chip)),
     ByteOf(maxPassiveUs / 0x100), ByteOf(maxPassiveUs % 0x100), CharByte(retries)]
  }

  /** A client's header is read back by the driver, and the payload follows it. */
  lemma HeaderRoundTrip(layout: LedLayout, chip: LedChip, maxPassiveUs: nat, retries: int, payload: seq<bv8>)
    requires maxPassiveUs < 0x1_0000 && -128 <= retries < 128
    ensures var buff := HeaderBytes(layout, chip, maxPassiveUs, retries) + payload;
      DecodeHeader(buff) == Ok(Header(layout, chip, maxPassiveUs * 1000, retries, 6))
      && buff[6..] == payload
  {
    var buff := HeaderBytes(layout, chip, maxPassiveUs, retries) + payload;
    IdsRoundTrip(chip, layout);
    assert buff[1] as int == LayoutId(layout) && buff[2] as int == ChipId(chip);
    assert buff[3] as int * 0x100 + buff[4] as int == maxPassiveUs;
  }

  /** Where the record of LED k starts in a payload of records of `ch` bytes: k * ch,
      counted up record by record as `inPtr += ncomp` does. */
  function Offset(k: nat, ch: nat): nat
  {
    if k == 0 then 0 else Offset(k - 1, ch) + ch
  }

  lemma {:induction false} OffsetIsProduct(k: nat, ch: nat)
    ensures Offset(k, ch) == k * ch
  {
    if k > 0 {
      OffsetIsProduct(k - 1, ch);
      assert (k - 1) * ch + ch == k * ch;
    }
  }

  lemma OffsetMono(a: nat, b: nat, ch: nat)
    requires a <= b
    ensures Offset(a, ch) <= Offset(b, ch)
  {
    OffsetIsProduct(a, ch);
    OffsetIsProduct(b, ch);
    assert a * ch <= b * ch;
  }

  /** Number of LEDs a payload of `len` bytes updates: whole LED records only, at most
      the channel's LED count. */
  function LedCount(len: nat, channels: nat, numLeds: nat): (leds: nat)
    requires channels > 0
    ensures leds <= numLeds && Offset(leds, channels) <= len
    ensures leds == numLeds || len < Offset(leds + 1, channels)
  {
    var n := len / channels;
    var leds := if n > numLeds then numLeds else n;
    WholeRecords(len, channels, leds);
    leds
  }

  /** At most len / ch whole records of ch bytes fit in len bytes, and that many do. */
  lemma WholeRecords(len: nat, ch: nat, leds: nat)
    requires ch > 0 && leds <= len / ch
    ensures Offset(leds, ch) <= len
    ensures leds == len / ch ==> len < Offset(leds + 1, ch)
  {
    var n := len / ch;
    assert n * ch <= len < n * ch + ch;
    OffsetIsProduct(n, ch);
    OffsetMono(leds, n, ch);
  }

  /** The bytes of LED k in the order the chip expects them: output byte i is input
      byte `fetchIdx[i]` of the LED's record. */
  function LedBytes(payload: seq<bv8>, layout: LedLayout, k: nat): (bs: seq<bv8>)
    requires Offset(k + 1, LayoutDesc(layout).channels) <= |payload|
    ensures |bs| == LayoutDesc(layout).channels
  {
    var d := LayoutDesc(layout);
    seq(d.channels, i requires 0 <= i < d.channels => payload[Offset(k, d.channels) + d.fetchIdx[i]])
  }

  /** The reordered bytes of the first `leds` LEDs. */
  function FrameBytes(payload: seq<bv8>, layout: LedLayout, leds: nat): (bs: seq<bv8>)
    requires Offset(leds, LayoutDesc(layout).channels) <= |payload|
    ensures |bs| == Offset(leds, LayoutDesc(layout).channels)
  {
    if leds == 0 then [] else FrameBytes(payload, layout, leds - 1) + LedBytes(payload, layout, leds - 1)
  }

  /** The payload bits the encoder receives: each LED's reordered bytes, most significant
      bit first. */
  function FrameBits(payload: seq<bv8>, layout: LedLayout, leds: nat): seq<bool>
    requires Offset(leds, LayoutDesc(layout).channels) <= |payload|
  {
    BytesBits(FrameBytes(payload, layout, leds))
  }

  /** Adding one LED appends its reordered bytes' bits. */
  lemma FrameBitsSnoc(payload: seq<bv8>, layout: LedLayout, leds: nat)
    requires Offset(leds + 1, LayoutDesc(layout).channels) <= |payload|
    ensures FrameBits(payload, layout, leds + 1)
         == FrameBits(payload, layout, leds) + BytesBits(LedBytes(payload, layout, leds))
  {
    BytesBitsConcat(FrameBytes(payload, layout, leds), LedBytes(payload, layout, leds));
  }

  /** Byte i of LED k's output is byte `fetchIdx[i]` of its input record. */
  lemma {:induction false} FrameBytesAt(payload: seq<bv8>, layout: LedLayout, leds: nat, k: nat, i: nat)
    requires Offset(leds, LayoutDesc(layout).channels) <= |payload|
    requires k < leds && i < LayoutDesc(layout).channels
    ensures Offset(k + 1, LayoutDesc(layout).channels) <= Offset(leds, LayoutDesc(layout).channels)
    ensures var ch := LayoutDesc(layout).channels;
      FrameBytes(payload, layout, leds)[Offset(k, ch) + i] == payload[Offset(k, ch) + LayoutDesc(layout).fetchIdx[i]]
    decreases leds
  {
    var ch := LayoutDesc(layout).channels;
    OffsetMono(k + 1, leds, ch);
    if k < leds - 1 {
      OffsetMono(k + 1, leds - 1, ch);
      FrameBytesAt(payload, layout, leds - 1, k, i);
    }
  }

  /** Every table layout reorders by swapping or keeping bytes, so the fetch order is
      its own inverse. */
  lemma FetchIdxInvolution(layout: LedLayout, j: nat)
    requires j < LayoutDesc(layout).channels
    ensures LayoutDesc(layout).fetchIdx[j] < LayoutDesc(layout).channels
    ensures LayoutDesc(layout).fetchIdx[LayoutDesc(layout).fetchIdx[j]] == j
  {
  }

  /** No colour is lost: input byte j of LED k is sent as output byte `fetchIdx[j]` of that LED. */
  lemma FrameBytesKeepInput(payload: seq<bv8>, layout: LedLayout, leds: nat, k: nat, j: nat)
    requires Offset(leds, LayoutDesc(layout).channels) <= |payload|
    requires k < leds && j < LayoutDesc(layout).channels
    ensures LayoutDesc(layout).fetchIdx[j] < LayoutDesc(layout).channels
    ensures Offset(k + 1, LayoutDesc(layout).channels) <= Offset(leds, LayoutDesc(layout).channels)
    ensures var d := LayoutDesc(layout);
      FrameBytes(payload, layout, leds)[Offset(k, d.channels) + d.fetchIdx[j]] == payload[Offset(k, d.channels) + j]
  {
    FetchIdxInvolution(layout, j);
    FrameBytesAt(payload, layout, leds, k, LayoutDesc(layout).fetchIdx[j]);
  }
}
