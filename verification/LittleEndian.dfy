// 32-bit words as the processor stores them.

module LittleEndian {

  // The number whose bytes, lowest first, are B.
  function Word(b: seq<int>): (w: int)
    requires |b| == 4
  {
    b[0] + 256 * b[1] + 65536 * b[2] + 16777216 * b[3]
  }

  function WordBytes(w: int): (b: seq<int>)
    ensures |b| == 4
  {
    [w % 256, w / 256 % 256, w / 65536 % 256, w / 16777216 % 256]
  }

  lemma WordRoundTrip(w: int)
    requires 0 <= w < 0x1_0000_0000
    ensures Word(WordBytes(w)) == w
  {
    assert w / 65536 == w / 256 / 256 && w / 16777216 == w / 65536 / 256;
  }
}
