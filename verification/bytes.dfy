/** Bytes as both sketches see them: the serial ports and the bus carry raw
    8-bit values, and the only text the sketches produce is ASCII. */
module Bytes {

  /** One byte on a serial line or on the bus. */
  newtype byte = x: int | 0 <= x < 256

  /** ASCII line feed, '\n': the end of a typed line. */
  const LF: byte := 10

  /** ASCII carriage return, '\r', which `println` sends before the line feed. */
  const CR: byte := 13

  /** ASCII space, ' '. */
  const Space: byte := 32

  /** The ASCII text "me: " printed in front of every echoed line. */
  const MePrefix: seq<byte> := [109, 101, 58, 32]

  /** Position of the first line feed in `s`: the end of the first complete line. */
  function FirstNewline(s: seq<byte>): (k: nat)
    requires LF in s
    ensures k < |s| && s[k] == LF
    ensures LF !in s[..k]
  {
    if s[0] == LF then 0
    else
      var k := 1 + FirstNewline(s[1..]);
      assert s[..k] == [s[0]] + s[1..][..k - 1];
      k
  }

  /** Position of the last line feed in `s`: what follows it is the
      unfinished line. */
  function LastNewline(s: seq<byte>): (k: nat)
    requires LF in s
    ensures k < |s| && s[k] == LF
    ensures LF !in s[k + 1..]
  {
    var n := |s| - 1;
    if s[n] == LF then n
    else
      assert s == s[..n] + [s[n]];
      var k := LastNewline(s[..n]);
      assert s[k + 1..] == s[..n][k + 1..] + [s[n]];
      k
  }
}
