// The chunked read of a channel's status text (`p44ledchain_read`): each read
// returns the next part of the answer, at most as many bytes as asked for,
// and a read at the end returns nothing and starts the answer over. The text
// itself is a parameter: its formatting is not part of this model.
module Status {

  /** What one read returns: the number of bytes, and the read position afterwards. */
  datatype Chunk = Chunk(bytes: nat, readIdx: nat)

  /** One read of at most `count` bytes from position `readIdx` of an answer of `len`
      bytes: the rest of the answer, cut to `count`; at or past the end nothing, and the
      position goes back to the start. */
  function ReadChunk(len: nat, readIdx: nat, count: nat): (r: Chunk)
    ensures readIdx >= len ==> r == Chunk(0, 0)
    ensures readIdx < len ==> r.readIdx == readIdx + r.bytes <= len
    ensures readIdx < len ==> r.bytes == if count < len - readIdx then count else len - readIdx
  {
    if readIdx >= len then Chunk(0, 0)
    else
      var rest := len - readIdx;
      var bytes := if rest > count then count else rest;
      Chunk(bytes, readIdx + bytes)
  }

  /** The text returned by reads of `count` bytes each from position `idx` up to the
      read that returns nothing. */
  function ReadsUntilEnd(ans: seq<char>, idx: nat, count: nat): seq<char>
    requires count > 0 && idx <= |ans|
    decreases |ans| - idx
  {
    var c := ReadChunk(|ans|, idx, count);
    if c.bytes == 0 then [] else ans[idx..c.readIdx] + ReadsUntilEnd(ans, c.readIdx, count)
  }

  /** Reading until a read returns nothing delivers the rest of the answer, each byte
      once and in order. */
  lemma {:induction false} ReadsReassemble(ans: seq<char>, idx: nat, count: nat)
    requires count > 0 && idx <= |ans|
    ensures ReadsUntilEnd(ans, idx, count) == ans[idx..]
    decreases |ans| - idx
  {
    var c := ReadChunk(|ans|, idx, count);
    if c.bytes != 0 {
      ReadsReassemble(ans, c.readIdx, count);
      assert ans[idx..] == ans[idx..c.readIdx] + ans[c.readIdx..];
    }
  }
}
