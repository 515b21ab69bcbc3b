// Shared helpers: optional values, error results and the C integer widths
// the driver relies on (u32 counters, u32 truncation of a 64-bit difference).
module Common {

  datatype Option<+T> = None | Some(value: T)

  datatype Result<+T, +E> = Ok(value: T) | Err(error: E)

  const TwoTo32: int := 0x1_0000_0000

  /** A value of C type `u32`. */
  type U32 = x: int | 0 <= x < TwoTo32

  /** Conversion to `u32` as C performs it: reduction modulo 2^32 (two's complement truncation). */
  function ToU32(x: int): (r: U32)
    ensures 0 <= x < TwoTo32 ==> r == x
    ensures (r - x) % TwoTo32 == 0
  {
    x % TwoTo32
  }

  /** `x++` on a `u32` field: wraps to 0 after 0xFFFFFFFF. */
  function Inc32(x: U32): (r: U32)
    ensures x < TwoTo32 - 1 ==> r == x + 1
    ensures x == TwoTo32 - 1 ==> r == 0
  {
    if x == TwoTo32 - 1 then 0 else x + 1
  }

  /** The byte holding a value 0..255, counted up from 0 (which keeps the proof in
      bit-vector increments rather than a conversion). */
  function ByteOf(n: int): (b: bv8)
    requires 0 <= n < 256
    ensures b as int == n
  {
    if n == 0 then 0 else ByteOf(n - 1) + 1
  }

  /** Value of a plain `char` of the target (MIPS, where `char` is signed) read from a byte. */
  function SignedChar(b: bv8): (r: int)
    ensures -128 <= r < 128
    ensures r >= 0 <==> b < 128
    ensures r >= 0 ==> r == b as int
  {
    if b < 128 then b as int else b as int - 256
  }

  /** Concatenation is associative (stated for the splits the proofs need). */
  lemma Assoc<T>(s: seq<T>, u: seq<T>, v: seq<T>)
    ensures s + (u + v) == (s + u) + v && |s + u| == |s| + |u|
  {
  }

  /** A prefix one longer is the prefix and the next element. */
  lemma PrefixSnocAt<T>(s: seq<T>, k: nat)
    requires k < |s|
    ensures s[..k + 1] == s[..k] + [s[k]]
  {
  }
}
