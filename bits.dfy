// Bit-level facts behind the input side of the encoder: the LED word that
// `update_leds` assembles (`ledword |= byte; ledword <<= 8`) and the input
// mask with which `generateBits` reads it most significant bit first
// (`1L << (aNumBits-1)`, `inMask >> 1`). Bit positions are `bv8` values, the
// `u8` bit count the driver passes, so every fact stays inside bit-vector
// arithmetic.
module Bits {

  /** Bit k of w, read through the mask `1 << k` that `generateBits` uses. */
  predicate BitAt(w: bv32, k: bv8)
    requires k < 32
  {
    w & (1 << k) != 0
  }

  /** The low n bits of w, most significant first: the order in which `generateBits` feeds them. */
  function MsbBits(w: bv32, n: bv8): (r: seq<bool>)
    requires n <= 32
    ensures |r| == n as int
  {
    if n == 0 then [] else [BitAt(w, n - 1)] + MsbBits(w, n - 1)
  }

  /** Reading the next bit down moves it from the bits still to read to those read. */
  lemma MsbBitsNext(w: bv32, total: bv8, n: bv8, done: seq<bool>)
    requires 0 < n <= total <= 32 && MsbBits(w, total) == done + MsbBits(w, n)
    ensures MsbBits(w, total) == (done + [BitAt(w, n - 1)]) + MsbBits(w, n - 1)
  {
    assert MsbBits(w, n) == [BitAt(w, n - 1)] + MsbBits(w, n - 1);
    assert done + ([BitAt(w, n - 1)] + MsbBits(w, n - 1)) == (done + [BitAt(w, n - 1)]) + MsbBits(w, n - 1);
  }

  /** Halving the input mask moves it one position down. */
  lemma MaskShr(k: bv8)
    requires 0 < k < 32
    ensures (1 as bv32) << k >> 1 == (1 as bv32) << (k - 1)
  {
  }

  /** The LED word of `update_leds`: the bytes ORed in one after the other, shifted left by 8 between two. */
  function LedWord(bs: seq<bv8>): bv32
  {
    if bs == [] then 0
    else if |bs| == 1 then bs[0] as bv32
    else (LedWord(bs[..|bs| - 1]) << 8) | bs[|bs| - 1] as bv32
  }

  /** One more byte ORed into the word, after the shift when it is not the first. */
  lemma LedWordSnoc(bs: seq<bv8>, i: nat)
    requires i < |bs|
    ensures LedWord(bs[..i + 1]) == (if i == 0 then 0 else LedWord(bs[..i]) << 8) | bs[i] as bv32
  {
    assert bs[..i + 1][..i] == bs[..i];
  }

  /** Bits of a byte, most significant first. */
  function ByteBits(b: bv8): (r: seq<bool>)
    ensures |r| == 8
  {
    MsbBits(b as bv32, 8)
  }

  /** Bits of a byte sequence, byte after byte, each most significant bit first. */
  function BytesBits(bs: seq<bv8>): (r: seq<bool>)
    ensures |r| == 8 * |bs|
  {
    if bs == [] then [] else BytesBits(bs[..|bs| - 1]) + ByteBits(bs[|bs| - 1])
  }

  /** The bits of two byte runs sent one after the other. */
  lemma {:induction false} BytesBitsConcat(a: seq<bv8>, b: seq<bv8>)
    ensures BytesBits(a + b) == BytesBits(a) + BytesBits(b)
    decreases |b|
  {
    if b == [] {
      assert a + b == a;
    } else {
      var front := b[..|b| - 1];
      assert (a + b)[..|a + b| - 1] == a + front;
      BytesBitsConcat(a, front);
    }
  }

  /** Bit width of a LED word of `|bs|` bytes, counted in the `u8` that `generateBits` receives. */
  function WordWidth(bs: seq<bv8>): (n: bv8)
    requires |bs| <= 4
    ensures n as int == 8 * |bs|
  {
    if bs == [] then 0 else WordWidth(bs[..|bs| - 1]) + 8
  }

  /** Feeding the LED word MSB-first sends its bytes in order, each MSB-first. */
  lemma {:induction false} LedWordBits(bs: seq<bv8>)
    requires |bs| <= 4
    ensures MsbBits(LedWord(bs), WordWidth(bs)) == BytesBits(bs)
  {
    if |bs| == 1 {
      assert bs[..0] == [];
      assert WordWidth(bs) == 8;
    } else if |bs| > 1 {
      var front := bs[..|bs| - 1];
      LedWordBits(front);
      ShiftedBits(LedWord(front), bs[|bs| - 1] as bv32, WordWidth(front));
    }
  }

  /** The top n + 8 bits of `(w << 8) | b`, for a byte b, are the low n bits of w followed by the 8 bits of b. */
  lemma {:induction false} ShiftedBits(w: bv32, b: bv32, n: bv8)
    requires n <= 24 && b < 0x100
    ensures MsbBits((w << 8) | b, n + 8) == MsbBits(w, n) + MsbBits(b, 8)
  {
    var x := (w << 8) | b;
    if n == 0 {
      LowBits(w, b, 8);
    } else {
      ShiftedBits(w, b, n - 1);
      HighBitOfShifted(w, b, n - 1);
      assert n - 1 + 8 == n + 7;
      assert MsbBits(x, n + 8) == [BitAt(x, n + 7)] + MsbBits(x, n + 7);
    }
  }

  /** The low k bits of `(w << 8) | b`, k <= 8, are those of b. */
  lemma {:induction false} LowBits(w: bv32, b: bv32, k: bv8)
    requires k <= 8 && b < 0x100
    ensures MsbBits((w << 8) | b, k) == MsbBits(b, k)
  {
    if k > 0 {
      LowBits(w, b, k - 1);
      LowBitOfShifted(w, b, k - 1);
    }
  }

  lemma LowBitOfShifted(w: bv32, b: bv32, k: bv8)
    requires k < 8 && b < 0x100
    ensures BitAt((w << 8) | b, k) == BitAt(b, k)
  {
  }

  lemma HighBitOfShifted(w: bv32, b: bv32, k: bv8)
    requires k < 24 && b < 0x100
    ensures BitAt((w << 8) | b, k + 8) == BitAt(w, k)
  {
  }
}
